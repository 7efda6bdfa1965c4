/** The physical state a particle owns: position, velocity and mass. It is a
    plain record whose fields the particle overwrites on every update. */
module Physics {
  import opened Vectors

  class State {
    var pos: Vec
    var v: Vec
    var m: real

    constructor (pos: Vec, v: Vec, m: real)
      ensures this.pos == pos && this.v == v && this.m == m
    {
      this.pos := pos;
      this.v := v;
      this.m := m;
    }
  }
}
