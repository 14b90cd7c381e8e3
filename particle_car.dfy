/** The car record of the particle model. */
module Cars {

  /**
   * `ParticleCar`: a position `x` (km), a velocity `v` (km/h) and an
   * acceleration `a`. A plain mutable record: the constructor stores its
   * arguments as given and checks nothing; the particle model later
   * overwrites `v` and `x` in place.
   */
  class ParticleCar {
    var x: real
    var v: real
    var a: real

    constructor (position: real, velocity: real, acceleration: real := 0.0)
      ensures x == position && v == velocity && a == acceleration
    {
      x := position;
      v := velocity;
      a := acceleration;
    }
  }
}
