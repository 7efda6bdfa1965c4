/** The drawables a particle pushes its state into, and the render batch
    that groups them into one draw call. A drawable is an image sprite or a
    rectangle; creating one registers it with a batch and deleting it takes
    it out again. Only what the particle code sets is tracked, as ghost
    state; drawing itself is not modelled. */
module Graphics {
  import opened Vectors

  /** The two kinds of drawable the system can create. */
  datatype Kind = Sprite | Rectangle(width: real, height: real)

  /** Colour and opacity a freshly created drawable has before anyone sets
      them: white, fully opaque. */
  const White: Vec := [255.0, 255.0, 255.0]
  const Opaque: real := 255.0

  /** The drawables drawn together by one draw call. */
  class Batch {
    ghost var members: set<Handle>

    constructor ()
      ensures members == {}
    {
      members := {};
    }
  }

  class Handle {
    const kind: Kind
    const batch: Batch
    ghost var x: real
    ghost var y: real
    ghost var color: Vec
    ghost var opacity: real

    /** Create a drawable of the given kind at (x, y) in `batch`. */
    constructor (kind: Kind, x: real, y: real, batch: Batch)
      modifies batch
      ensures this.kind == kind && this.batch == batch && this.x == x && this.y == y
      ensures color == White && opacity == Opaque
      ensures batch.members == old(batch.members) + {this}
    {
      this.kind := kind;
      this.batch := batch;
      this.x, this.y := x, y;
      color, opacity := White, Opaque;
      new;
      batch.members := batch.members + {this};
    }

    /** Move the drawable. */
    method MoveTo(x: real, y: real)
      modifies this
      ensures this.x == x && this.y == y
      ensures color == old(color) && opacity == old(opacity)
    {
      this.x, this.y := x, y;
    }

    method SetColor(c: Vec)
      modifies this
      ensures color == c
      ensures x == old(x) && y == old(y) && opacity == old(opacity)
    {
      color := c;
    }

    method SetOpacity(o: real)
      modifies this
      ensures opacity == o
      ensures x == old(x) && y == old(y) && color == old(color)
    {
      opacity := o;
    }

    /** Release the drawable: it leaves its batch. */
    method Delete()
      modifies batch
      ensures batch.members == old(batch.members) - {this}
    {
      batch.members := batch.members - {this};
    }
  }
}
