/** The particle lifecycle engine: per-burst settings, particles that age,
    move and fade, and the bounded system that emits, advances and reaps them.

    The clock and the random draws are parameters here: `now` is the
    current clock reading, and each particle's lifespan and start velocity
    are samples handed in by the caller. */
module Particles {
  import opened Vectors
  import opened Physics
  import opened Graphics
  import opened Reaping

  /** Shared, read-only configuration of one emission burst. */
  datatype Settings = Settings(
    startColor: Vec, endColor: Vec,
    startOpacity: real, endOpacity: real,
    minLifespan: real, maxLifespan: real,
    startM: real, endM: real)

  /** Everything a particle update can change: the particle's flag, its
      physical state and its drawable's fields. */
  datatype Snapshot = Snapshot(
    dead: bool, pos: Vec, v: Vec, m: real,
    x: real, y: real, color: Vec, opacity: real)

  /** Elapsed fraction of the lifespan. */
  function Phase(elapsed: real, lifespan: real): (t: real)
    requires lifespan > 0.0
    ensures t * lifespan == elapsed
    ensures 0.0 <= elapsed <= lifespan ==> 0.0 <= t <= 1.0
    ensures elapsed == 0.0 ==> t == 0.0
  {
    elapsed / lifespan
  }

  /** The mass a living particle is given at a point of its life. */
  function MassAt(cfg: Settings, elapsed: real, lifespan: real): real
    requires lifespan > 0.0
  {
    Lerp(cfg.startM, cfg.endM, Phase(elapsed, lifespan))
  }

  /** What an update needs to be well defined. An expired particle needs
      nothing: it is only flagged dead. One that has not expired needs a
      positive lifespan to divide the elapsed time by, two-dimensional
      position and velocity, forces of that size, matching colour ends and a
      non-zero mass whenever some force has to be divided by it. */
  predicate Ready(s: Snapshot, cfg: Settings, creationTime: real, lifespan: real,
                  now: real, forces: seq<Vec>)
  {
    now - creationTime <= lifespan ==>
      lifespan > 0.0 &&
      |s.pos| == 2 && |s.v| == 2 &&
      (forall k :: 0 <= k < |forces| ==> |forces[k]| == 2) &&
      |cfg.startColor| == |cfg.endColor| &&
      (|forces| > 0 ==> MassAt(cfg, now - creationTime, lifespan) != 0.0)
  }

  /** One particle update. An expired particle is flagged dead and nothing
      else changes. Otherwise the mass is set from the elapsed fraction t,
      the position takes one Euler step with the velocity from before this
      update, the drawable is moved there, the forces change the velocity
      using the new mass, and colour and opacity follow t. The dead flag is
      never cleared. */
  function Tick(s: Snapshot, cfg: Settings, creationTime: real, lifespan: real,
                dt: real, now: real, forces: seq<Vec>): Snapshot
    requires Ready(s, cfg, creationTime, lifespan, now, forces)
  {
    var elapsed := now - creationTime;
    if elapsed > lifespan then s.(dead := true)
    else
      var t := Phase(elapsed, lifespan);
      var m := MassAt(cfg, elapsed, lifespan);
      var pos := Add(s.pos, Scale(s.v, dt));
      var v := if |forces| == 0 then s.v else ApplyForces(s.v, forces, m, dt);
      s.(m := m, pos := pos, x := pos[0], y := pos[1], v := v,
         color := VLerp(cfg.startColor, cfg.endColor, t),
         opacity := Lerp(cfg.startOpacity, cfg.endOpacity, t))
  }

  /** An expired particle only gets its flag set. */
  lemma TickExpired(s: Snapshot, cfg: Settings, creationTime: real, lifespan: real,
                    dt: real, now: real, forces: seq<Vec>)
    requires Ready(s, cfg, creationTime, lifespan, now, forces)
    requires now - creationTime > lifespan
    ensures Tick(s, cfg, creationTime, lifespan, dt, now, forces) == s.(dead := true)
  {
  }

  /** The dead flag is one-way: an update never clears it. */
  lemma TickKeepsDead(s: Snapshot, cfg: Settings, creationTime: real, lifespan: real,
                      dt: real, now: real, forces: seq<Vec>)
    requires Ready(s, cfg, creationTime, lifespan, now, forces)
    ensures s.dead ==> Tick(s, cfg, creationTime, lifespan, dt, now, forces).dead
    ensures Tick(s, cfg, creationTime, lifespan, dt, now, forces).dead <==>
            s.dead || now - creationTime > lifespan
  {
  }

  /** A living particle inside its lifespan: the flag is untouched; mass, colour and opacity lie between their
      start and end values and equal the start values at elapsed time 0; the
      position advances by the old velocity times dt and the drawable sits
      at the new position; without forces the velocity is unchanged. */
  lemma TickAlive(s: Snapshot, cfg: Settings, creationTime: real, lifespan: real,
                  dt: real, now: real, forces: seq<Vec>)
    requires Ready(s, cfg, creationTime, lifespan, now, forces)
    requires 0.0 <= now - creationTime <= lifespan
    ensures var r := Tick(s, cfg, creationTime, lifespan, dt, now, forces);
      && r.dead == s.dead
      && Between(r.m, cfg.startM, cfg.endM)
      && |r.color| == |cfg.startColor|
      && (forall c :: 0 <= c < |r.color| ==> Between(r.color[c], cfg.startColor[c], cfg.endColor[c]))
      && Between(r.opacity, cfg.startOpacity, cfg.endOpacity)
      && |r.pos| == 2
      && (forall c :: 0 <= c < 2 ==> r.pos[c] == s.pos[c] + s.v[c] * dt)
      && r.x == r.pos[0] && r.y == r.pos[1]
      && (|forces| == 0 ==> r.v == s.v)
      && (now == creationTime ==>
            r.m == cfg.startM && r.color == cfg.startColor && r.opacity == cfg.startOpacity)
  {
  }

  /** Velocity after a living update: the old velocity plus the net force
      divided by the new mass, times dt. */
  lemma TickVelocity(s: Snapshot, cfg: Settings, creationTime: real, lifespan: real,
                     dt: real, now: real, forces: seq<Vec>)
    requires Ready(s, cfg, creationTime, lifespan, now, forces)
    requires now - creationTime <= lifespan && |forces| > 0
    ensures var r := Tick(s, cfg, creationTime, lifespan, dt, now, forces);
      |r.v| == 2 &&
      forall c :: 0 <= c < 2 ==> r.v[c] == s.v[c] + SumAt(forces, c) / r.m * dt
  {
    ApplyForcesSum(s.v, forces, MassAt(cfg, now - creationTime, lifespan), dt);
  }

  /** With positive start and end masses a particle that is inside its
      lifespan has positive mass, so dividing a force by it is safe. */
  lemma MassPositive(cfg: Settings, elapsed: real, lifespan: real)
    requires lifespan > 0.0 && 0.0 <= elapsed <= lifespan
    requires cfg.startM > 0.0 && cfg.endM > 0.0
    ensures MassAt(cfg, elapsed, lifespan) > 0.0
  {
  }

  /** The mass is non-decreasing in the elapsed time when startM <= endM and
      non-increasing otherwise. Within the lifespan it therefore moves from the
      start mass towards the end mass; past the lifespan it may move beyond
      the end mass (an update then only sets the dead flag). */
  lemma MassMonotone(cfg: Settings, e1: real, e2: real, lifespan: real)
    requires lifespan > 0.0 && e1 <= e2
    ensures cfg.startM <= cfg.endM ==> MassAt(cfg, e1, lifespan) <= MassAt(cfg, e2, lifespan)
    ensures cfg.endM <= cfg.startM ==> MassAt(cfg, e2, lifespan) <= MassAt(cfg, e1, lifespan)
  {
    var t1, t2 := Phase(e1, lifespan), Phase(e2, lifespan);
    assert t2 - t1 == (e2 - e1) / lifespan;
    LerpMonotone(cfg.startM, cfg.endM, t1, t2);
  }

  class Particle {
    const sprite: Handle
    const state: State
    const creationTime: real
    const settings: Settings
    const lifespan: real
    var dead: bool

    ghost function View(): Snapshot
      reads this, state, sprite
    {
      Snapshot(dead, state.pos, state.v, state.m,
               sprite.x, sprite.y, sprite.color, sprite.opacity)
    }

    /** `lifespan` is a sample drawn uniformly between the
        settings' two lifespan bounds. The drawable takes the start colour. */
    constructor (sprite: Handle, state: State, creationTime: real, settings: Settings,
                 lifespan: real)
      requires Between(lifespan, settings.minLifespan, settings.maxLifespan)
      modifies sprite
      ensures this.sprite == sprite && this.state == state
      ensures this.creationTime == creationTime && this.settings == settings
      ensures this.lifespan == lifespan && !dead
      ensures sprite.color == settings.startColor
      ensures sprite.x == old(sprite.x) && sprite.y == old(sprite.y)
      ensures sprite.opacity == old(sprite.opacity)
    {
      this.sprite := sprite;
      this.state := state;
      this.creationTime := creationTime;
      this.settings := settings;
      this.lifespan := lifespan;
      dead := false;
      new;
      sprite.SetColor(settings.startColor);
    }

    /** The update is well defined from snapshot `pre` (see Ready). */
    predicate ReadyFrom(pre: Snapshot, now: real, forces: seq<Vec>) {
      Ready(pre, settings, creationTime, lifespan, now, forces)
    }

    /** The snapshot one update leads to from `pre` (see Tick). */
    function Next(pre: Snapshot, dt: real, now: real, forces: seq<Vec>): Snapshot
      requires ReadyFrom(pre, now, forces)
    {
      Tick(pre, settings, creationTime, lifespan, dt, now, forces)
    }

    /** Advance the particle to time `now`, `dt` seconds after the previous
        update, under the given forces. */
    method Update(dt: real, now: real, forces: seq<Vec>)
      requires ReadyFrom(View(), now, forces)
      modifies this, state, sprite
      ensures View() == Next(old(View()), dt, now, forces)
    {
      var elapsed := now - creationTime;
      if elapsed > lifespan {
        dead := true;
        return;
      }
      var t := Phase(elapsed, lifespan);
      state.m := Lerp(settings.startM, settings.endM, t);
      state.pos := Add(state.pos, Scale(state.v, dt));
      sprite.MoveTo(state.pos[0], state.pos[1]);
      Accelerate(dt, forces);
      sprite.SetColor(VLerp(settings.startColor, settings.endColor, t));
      sprite.SetOpacity(Lerp(settings.startOpacity, settings.endOpacity, t));
    }

    /** The force loop of an update: each force, in list order, adds
        (force / m) * dt to the velocity; position and mass stay. */
    method Accelerate(dt: real, forces: seq<Vec>)
      requires |forces| > 0 ==> state.m != 0.0
      requires forall k :: 0 <= k < |forces| ==> |forces[k]| == |state.v|
      modifies state
      ensures state.pos == old(state.pos) && state.m == old(state.m)
      ensures |forces| == 0 ==> state.v == old(state.v)
      ensures |forces| > 0 ==> state.v == ApplyForces(old(state.v), forces, state.m, dt)
    {
      ghost var v0 := state.v;
      var i := 0;
      while i < |forces|
        invariant 0 <= i <= |forces|
        invariant state.pos == old(state.pos) && state.m == old(state.m)
        invariant i == 0 ==> state.v == v0
        invariant i > 0 ==> state.v == ApplyForces(v0, forces[..i], state.m, dt)
        invariant |state.v| == |v0|
      {
        var a := Divide(forces[i], state.m);
        state.v := Add(state.v, Scale(a, dt));
        assert forces[..i + 1][..i] == forces[..i];
        i := i + 1;
      }
      assert forces[..|forces|] == forces;
    }
  }

  /** Number of particles one emission creates, given `len` particles
      already in the system: the loop over `num` stops as soon as
      `len + i` equals `maxCount`. */
  function EmitCount(len: nat, num: int, maxCount: int): (r: nat)
    ensures num <= 0 ==> r == 0
    ensures 0 < num ==> r <= num
    ensures len <= maxCount ==> len + r <= maxCount
    ensures len <= maxCount && 0 <= num ==> r == num || len + r == maxCount
    ensures maxCount < len ==> r == if num < 0 then 0 else num
  {
    if 0 <= maxCount - len < num then maxCount - len
    else if num < 0 then 0
    else num
  }

  /** A velocity sample: one component per component of the lower bound,
      each between its two bounds. */
  predicate VelocitySample(v: Vec, lo: Vec, hi: Vec)
    requires |lo| <= |hi|
  {
    |v| == |lo| && forall c :: 0 <= c < |lo| ==> Between(v[c], lo[c], hi[c])
  }

  /** The state a particle is created in by an emission at (x, y) at time
      `now`, with the given lifespan and velocity samples. */
  ghost predicate Born(p: Particle, kind: Kind, x: real, y: real, settings: Settings,
                       now: real, lifespan: real, velocity: Vec)
    reads p, p.state, p.sprite
  {
    && !p.dead && p.creationTime == now && p.settings == settings
    && p.lifespan == lifespan
    && p.state.pos == [x, y] && p.state.v == velocity && p.state.m == settings.startM
    && p.sprite.kind == kind && p.sprite.x == x && p.sprite.y == y
    && p.sprite.color == settings.startColor && p.sprite.opacity == Opaque
  }

  /** Dead flags of a list of particles, in list order. */
  ghost function DeadFlags(ps: seq<Particle>): (d: seq<bool>)
    reads set p | p in ps
    ensures |d| == |ps|
  {
    seq(|ps|, k requires 0 <= k < |ps| reads ps => ps[k].dead)
  }

  /** The drawables the reap pass deletes, from position `j` of `ps` on. */
  function DroppedSprites(ps: seq<Particle>, dead: seq<bool>, j: nat): set<Handle>
    requires |dead| == |ps|
    decreases |ps| - j
  {
    if j >= |ps| then {}
    else if dead[j] then {ps[j].sprite} + DroppedSprites(ps, dead, j + 2)
    else DroppedSprites(ps, dead, j + 1)
  }

  /** One step of the reap pass: what it has deleted so far plus what it
      will delete from here on stays the same. */
  lemma DroppedStep(ps: seq<Particle>, dead: seq<bool>, j: nat, gone: set<Handle>)
    requires |dead| == |ps| && j < |ps|
    ensures dead[j] ==>
      (gone + {ps[j].sprite}) + DroppedSprites(ps, dead, j + 2) == gone + DroppedSprites(ps, dead, j)
    ensures !dead[j] ==> gone + DroppedSprites(ps, dead, j + 1) == gone + DroppedSprites(ps, dead, j)
  {
  }

  /** Deleting one more drawable from what is left. */
  lemma MinusOneMore<T>(a: set<T>, gone: set<T>, x: T)
    ensures (a - gone) - {x} == a - (gone + {x})
  {
  }

  /** Particles, their states and their drawables are pairwise distinct. */
  predicate Distinct(ps: seq<Particle>) {
    forall a, b :: 0 <= a < b < |ps| ==>
      ps[a] != ps[b] && ps[a].state != ps[b].state && ps[a].sprite != ps[b].sprite
  }

  /** Appending a particle adds its drawable to the list's drawables. */
  lemma SpritesSnoc(ps: seq<Particle>, p: Particle)
    ensures (set q | q in ps + [p] :: q.sprite) == (set q | q in ps :: q.sprite) + {p.sprite}
  {
  }

  /** Particles, states and drawables of one list are apart from those of
      another. */
  predicate Disjoint(ps: seq<Particle>, qs: seq<Particle>) {
    forall a, b :: 0 <= a < |ps| && 0 <= b < |qs| ==>
      ps[a] != qs[b] && ps[a].state != qs[b].state && ps[a].sprite != qs[b].sprite
  }

  /** Joining two distinct lists that are apart gives a distinct list. */
  lemma Joined(ps: seq<Particle>, qs: seq<Particle>)
    requires Distinct(ps) && Distinct(qs) && Disjoint(ps, qs)
    ensures Distinct(ps + qs)
  {
    var r := ps + qs;
    forall a, b | 0 <= a < b < |r|
      ensures r[a] != r[b] && r[a].state != r[b].state && r[a].sprite != r[b].sprite
    {
      if b < |ps| {
      } else if a < |ps| {
        assert r[b] == qs[b - |ps|];
      } else {
        assert r[a] == qs[a - |ps|] && r[b] == qs[b - |ps|];
      }
    }
  }

  /** Particles picked from a distinct list at increasing positions are
      distinct. */
  lemma PickedDistinct(ps: seq<Particle>, idx: seq<nat>)
    requires Distinct(ps)
    requires forall k :: 0 <= k < |idx| ==> idx[k] < |ps|
    requires Increasing(idx)
    ensures Distinct(Pick(ps, idx))
  {
    var r := Pick(ps, idx);
    forall a, b | 0 <= a < b < |r|
      ensures r[a] != r[b] && r[a].state != r[b].state && r[a].sprite != r[b].sprite
    {
      assert r[a] == ps[idx[a]] && r[b] == ps[idx[b]];
    }
  }

  /** With distinct drawables, a particle's drawable is deleted exactly when
      the pass removes its position. */
  lemma {:induction false} DroppedSpritesAt(ps: seq<Particle>, dead: seq<bool>, j: nat)
    requires |dead| == |ps| && Distinct(ps)
    ensures forall k :: 0 <= k < |ps| ==>
              (ps[k].sprite in DroppedSprites(ps, dead, j) <==> k in RemovedFrom(dead, j))
    decreases |ps| - j
  {
    if j < |ps| {
      if dead[j] {
        DroppedSpritesAt(ps, dead, j + 2);
      } else {
        DroppedSpritesAt(ps, dead, j + 1);
      }
    }
  }

  /** After a whole pass, a particle's drawable is still in a batch that held
      them all exactly when the pass kept the particle. */
  lemma ReapedSprites(ps: seq<Particle>, dead: seq<bool>, all: set<Handle>)
    requires |dead| == |ps| && Distinct(ps)
    requires forall k :: 0 <= k < |ps| ==> ps[k].sprite in all
    ensures forall k :: 0 <= k < |ps| ==>
              (ps[k].sprite in all - DroppedSprites(ps, dead, 0) <==> k in Kept(dead))
  {
    RemovedUnlessKept(dead, 0);
    DroppedSpritesAt(ps, dead, 0);
  }

  /** What a whole reap pass leaves, for a distinct list whose drawables
      all sit in one batch holding `all`: the list `out` is the particles at
      the kept positions, in order, still distinct, and the batch `left`
      still holds a particle's drawable exactly when the pass kept it. */
  lemma ReapOutcome(ps: seq<Particle>, dead: seq<bool>, all: set<Handle>, b: Batch,
                    out: seq<Particle>, left: set<Handle>)
    requires |dead| == |ps| && Distinct(ps)
    requires forall k :: 0 <= k < |ps| ==> ps[k].sprite in all && ps[k].sprite.batch == b
    requires out == Survivors(ps, dead, 0) && left == all - DroppedSprites(ps, dead, 0)
    ensures |out| == |Kept(dead)| <= |ps| && left <= all
    ensures forall k :: 0 <= k < |out| ==> out[k] == ps[Kept(dead)[k]]
    ensures forall k :: 0 <= k < |ps| ==> (ps[k].sprite in left <==> k in Kept(dead))
    ensures forall k :: 0 <= k < |ps| && !dead[k] ==> k in Kept(dead)
    ensures Distinct(out)
    ensures forall k :: 0 <= k < |out| ==> out[k].sprite in left && out[k].sprite.batch == b
  {
    var kept := Kept(dead);
    SurvivorsPicksKept(ps, dead);
    KeptIncreasing(dead, 0);
    PickedDistinct(ps, kept);
    ReapedSprites(ps, dead, all);
    LiveKept(dead, 0);
    forall k | 0 <= k < |out|
      ensures out[k].sprite in left && out[k].sprite.batch == b
    {
      assert out[k] == ps[kept[k]] && kept[k] in kept;
    }
  }

  class ParticleSystem {
    var particles: seq<Particle>
    var forces: seq<Vec>
    const maxCount: int
    const batch: Batch

    /** Particles are distinct and own distinct states and drawables; the
        list respects the capacity; every listed particle's drawable is in
        the system's batch. */
    ghost predicate Valid()
      reads this, batch
    {
      && (0 <= maxCount ==> |particles| <= maxCount)
      && Distinct(particles)
      && (forall i :: 0 <= i < |particles| ==>
            particles[i].sprite.batch == batch && particles[i].sprite in batch.members)
    }

    constructor (maxCount: int)
      ensures Valid() && fresh(batch)
      ensures this.maxCount == maxCount && particles == [] && forces == []
      ensures batch.members == {}
    {
      this.maxCount := maxCount;
      particles := [];
      forces := [];
      batch := new Batch();
    }

    /** Create up to `num` sprite particles at (x, y); the burst is cut short
        when the list reaches capacity. */
    method Emit(x: real, y: real, num: int, settings: Settings, minV: Vec, maxV: Vec,
                now: real, lifespans: seq<real>, velocities: seq<Vec>)
      returns (created: seq<Particle>)
      requires Valid()
      requires |minV| <= |maxV|
      requires |lifespans| >= EmitCount(|particles|, num, maxCount)
      requires |velocities| >= EmitCount(|particles|, num, maxCount)
      requires forall k :: 0 <= k < |lifespans| ==>
                 Between(lifespans[k], settings.minLifespan, settings.maxLifespan)
      requires forall k :: 0 <= k < |velocities| ==> VelocitySample(velocities[k], minV, maxV)
      modifies this, batch
      ensures Valid()
      ensures |created| == EmitCount(old(|particles|), num, maxCount)
      ensures particles == old(particles) + created && forces == old(forces)
      ensures forall k :: 0 <= k < |created| ==>
                fresh(created[k]) && fresh(created[k].state) && fresh(created[k].sprite) &&
                Born(created[k], Sprite, x, y, settings, now, lifespans[k], velocities[k])
      ensures forall k :: 0 <= k < |created| ==>
                VelocitySample(created[k].state.v, minV, maxV) &&
                Between(created[k].lifespan, settings.minLifespan, settings.maxLifespan)
      ensures batch.members == old(batch.members) + set p | p in created :: p.sprite
    {
      created := Spawn(Sprite, x, y, num, settings, minV, maxV, now, lifespans, velocities);
    }

    /** As Emit, drawing each particle as a width-by-height rectangle. */
    method EmitRect(x: real, y: real, num: int, settings: Settings, minV: Vec, maxV: Vec,
                    now: real, lifespans: seq<real>, velocities: seq<Vec>,
                    width: real := 5.0, height: real := 5.0)
      returns (created: seq<Particle>)
      requires Valid()
      requires |minV| <= |maxV|
      requires |lifespans| >= EmitCount(|particles|, num, maxCount)
      requires |velocities| >= EmitCount(|particles|, num, maxCount)
      requires forall k :: 0 <= k < |lifespans| ==>
                 Between(lifespans[k], settings.minLifespan, settings.maxLifespan)
      requires forall k :: 0 <= k < |velocities| ==> VelocitySample(velocities[k], minV, maxV)
      modifies this, batch
      ensures Valid()
      ensures |created| == EmitCount(old(|particles|), num, maxCount)
      ensures particles == old(particles) + created && forces == old(forces)
      ensures forall k :: 0 <= k < |created| ==>
                fresh(created[k]) && fresh(created[k].state) && fresh(created[k].sprite) &&
                Born(created[k], Rectangle(width, height), x, y, settings, now,
                     lifespans[k], velocities[k])
      ensures forall k :: 0 <= k < |created| ==>
                VelocitySample(created[k].state.v, minV, maxV) &&
                Between(created[k].lifespan, settings.minLifespan, settings.maxLifespan)
      ensures batch.members == old(batch.members) + set p | p in created :: p.sprite
    {
      created := Spawn(Rectangle(width, height), x, y, num, settings, minV, maxV, now,
                       lifespans, velocities);
    }

    /** The emission loop both Emit and EmitRect run: the k-th particle it
        creates gets the k-th samples; the new particles are appended to the
        list at the end. */
    method Spawn(kind: Kind, x: real, y: real, num: int, settings: Settings,
                 minV: Vec, maxV: Vec, now: real, lifespans: seq<real>, velocities: seq<Vec>)
      returns (created: seq<Particle>)
      requires Valid()
      requires |minV| <= |maxV|
      requires |lifespans| >= EmitCount(|particles|, num, maxCount)
      requires |velocities| >= EmitCount(|particles|, num, maxCount)
      requires forall k :: 0 <= k < |lifespans| ==>
                 Between(lifespans[k], settings.minLifespan, settings.maxLifespan)
      requires forall k :: 0 <= k < |velocities| ==> VelocitySample(velocities[k], minV, maxV)
      modifies this, batch
      ensures Valid()
      ensures |created| == EmitCount(old(|particles|), num, maxCount)
      ensures particles == old(particles) + created && forces == old(forces)
      ensures forall k :: 0 <= k < |created| ==>
                fresh(created[k]) && fresh(created[k].state) && fresh(created[k].sprite) &&
                Born(created[k], kind, x, y, settings, now, lifespans[k], velocities[k])
      ensures forall k :: 0 <= k < |created| ==>
                VelocitySample(created[k].state.v, minV, maxV) &&
                Between(created[k].lifespan, settings.minLifespan, settings.maxLifespan)
      ensures batch.members == old(batch.members) + set p | p in created :: p.sprite
    {
      created := Burst(kind, x, y, num, settings, now, lifespans, velocities);
      Joined(particles, created);
      particles := particles + created;
    }

    /** The loop of an emission: it creates particles until `num` are made
        or the list plus the new ones reaches capacity. */
    method Burst(kind: Kind, x: real, y: real, num: int, settings: Settings,
                 now: real, lifespans: seq<real>, velocities: seq<Vec>)
      returns (created: seq<Particle>)
      requires |lifespans| >= EmitCount(|particles|, num, maxCount)
      requires |velocities| >= EmitCount(|particles|, num, maxCount)
      requires forall k :: 0 <= k < |lifespans| ==>
                 Between(lifespans[k], settings.minLifespan, settings.maxLifespan)
      modifies batch
      ensures |created| == EmitCount(|particles|, num, maxCount)
      ensures forall k :: 0 <= k < |created| ==>
                fresh(created[k]) && fresh(created[k].state) && fresh(created[k].sprite) &&
                created[k].sprite.batch == batch &&
                Born(created[k], kind, x, y, settings, now, lifespans[k], velocities[k])
      ensures Distinct(created)
      ensures batch.members == old(batch.members) + set p | p in created :: p.sprite
    {
      ghost var count := EmitCount(|particles|, num, maxCount);
      created := [];
      var i := 0;
      while i < num
        invariant 0 <= i <= count && |created| == i
        invariant forall k :: 0 <= k < i ==>
                    fresh(created[k]) && fresh(created[k].state) && fresh(created[k].sprite) &&
                    created[k].sprite.batch == batch &&
                    Born(created[k], kind, x, y, settings, now, lifespans[k], velocities[k])
        invariant Distinct(created)
        invariant batch.members == old(batch.members) + set p | p in created :: p.sprite
      {
        if |particles| + i == maxCount {
          break;
        }
        var particle := NewParticle(kind, x, y, settings, now, lifespans[i], velocities[i]);
        Joined(created, [particle]);
        SpritesSnoc(created, particle);
        created := created + [particle];
        i := i + 1;
      }
    }

    /** One pass of the emission loop: a new drawable in the system's batch,
        a new state at (x, y) and the particle that owns both. */
    method NewParticle(kind: Kind, x: real, y: real, settings: Settings, now: real,
                       lifespan: real, velocity: Vec)
      returns (p: Particle)
      requires Between(lifespan, settings.minLifespan, settings.maxLifespan)
      modifies batch
      ensures fresh(p) && fresh(p.state) && fresh(p.sprite) && p.sprite.batch == batch
      ensures Born(p, kind, x, y, settings, now, lifespan, velocity)
      ensures batch.members == old(batch.members) + {p.sprite}
    {
      var sprite := new Handle(kind, x, y, batch);
      var state := new State([x, y], velocity, settings.startM);
      p := new Particle(sprite, state, now, settings, lifespan);
    }

    /** Advance every particle, then reap: each particle is advanced once,
        with the same `now` and force list; afterwards the list holds exactly
        the particles the reap pass keeps, in their old order, and a
        particle's drawable is still in the batch exactly when it is kept. */
    method Update(dt: real, now: real)
      requires Valid()
      requires forall k :: 0 <= k < |particles| ==>
                 particles[k].ReadyFrom(particles[k].View(), now, forces)
      modifies this, batch, set p | p in particles :: p,
               set p | p in particles :: p.state, set p | p in particles :: p.sprite
      ensures Valid() && forces == old(forces)
      ensures var ps := old(particles);
        var kept := Kept(DeadFlags(ps));
        && |particles| == |kept|
        && (forall k :: 0 <= k < |kept| ==> particles[k] == ps[kept[k]])
        && (forall k :: 0 <= k < |ps| ==>
              ps[k].View() == ps[k].Next(old(ps[k].View()), dt, now, old(forces)))
        && (forall k :: 0 <= k < |ps| ==> (ps[k].sprite in batch.members <==> k in kept))
        && (forall k :: 0 <= k < |ps| && !ps[k].dead ==> k in kept)
        && batch.members == old(batch.members) - DroppedSprites(ps, DeadFlags(ps), 0)
    {
      AdvanceAll(dt, now);
      ghost var ps := particles;
      ghost var dead := DeadFlags(ps);
      ghost var members := batch.members;
      ReapDead();
      assert DeadFlags(ps) == dead;
      ReapOutcome(ps, dead, members, batch, particles, batch.members);
    }

    /** The update pass: every particle, in list order, advanced once. */
    method AdvanceAll(dt: real, now: real)
      requires Valid()
      requires forall k :: 0 <= k < |particles| ==>
                 particles[k].ReadyFrom(particles[k].View(), now, forces)
      modifies set p | p in particles :: p,
               set p | p in particles :: p.state, set p | p in particles :: p.sprite
      ensures Valid()
      ensures forall k :: 0 <= k < |particles| ==>
                particles[k].View() == particles[k].Next(old(particles[k].View()), dt, now, forces)
    {
      var i := 0;
      while i < |particles|
        invariant 0 <= i <= |particles|
        invariant forall k :: 0 <= k < |particles| ==>
                    particles[k].ReadyFrom(old(particles[k].View()), now, forces)
        invariant forall k :: 0 <= k < i ==>
                    particles[k].View() == particles[k].Next(old(particles[k].View()), dt, now, forces)
        invariant forall k :: i <= k < |particles| ==> particles[k].View() == old(particles[k].View())
      {
        AdvanceOne(i, dt, now);
        i := i + 1;
      }
    }

    /** Advance the particle at index `i`; no other particle changes. */
    method AdvanceOne(i: nat, dt: real, now: real)
      requires Valid() && i < |particles|
      requires particles[i].ReadyFrom(particles[i].View(), now, forces)
      modifies particles[i], particles[i].state, particles[i].sprite
      ensures particles[i].View() == particles[i].Next(old(particles[i].View()), dt, now, forces)
      ensures forall k :: 0 <= k < |particles| && k != i ==>
                particles[k].View() == old(particles[k].View())
    {
      particles[i].Update(dt, now, forces);
    }

    /** Take the particle at index `i` out of the list and delete its
        drawable. */
    method Discard(i: nat)
      requires i < |particles| && particles[i].sprite.batch == batch
      modifies this, batch
      ensures particles == old(particles[..i] + particles[i + 1..]) && forces == old(forces)
      ensures batch.members == old(batch.members) - {old(particles[i].sprite)}
    {
      var p := particles[i];
      particles := particles[..i] + particles[i + 1..];
      p.sprite.Delete();
    }

    /** The reap pass: walk the list with an index; remove the particle at
        the index when it is dead and delete its drawable; always advance the
        index. Removing at the index is what removing the first equal entry
        does only when no particle is listed twice, which `Valid` (and so
        `Update`, the one caller) guarantees. */
    method ReapDead()
      requires forall k :: 0 <= k < |particles| ==> particles[k].sprite.batch == batch
      modifies this, batch
      ensures forces == old(forces)
      ensures particles == Survivors(old(particles), old(DeadFlags(particles)), 0)
      ensures batch.members ==
                old(batch.members) - DroppedSprites(old(particles), old(DeadFlags(particles)), 0)
    {
      ghost var ps := particles;
      ghost var dead := DeadFlags(ps);
      ghost var n := |ps|;
      ghost var members0 := batch.members;
      // the pass has handled ps[..j], kept `out` of them and deleted the
      // drawables in `gone`
      ghost var j: nat := 0;
      ghost var out: seq<Particle> := [];
      ghost var gone: set<Handle> := {};
      assert [] + Survivors(ps, dead, 0) == Survivors(ps, dead, 0);
      var i := 0;
      while i < |particles|
        invariant forces == old(forces) && j <= n
        invariant out + Survivors(ps, dead, j) == Survivors(ps, dead, 0)
        invariant gone + DroppedSprites(ps, dead, j) == DroppedSprites(ps, dead, 0)
        invariant particles == out + ps[j..]
        invariant i == |out| || (i == |out| + 1 && j == n)
        invariant batch.members == members0 - gone
        decreases |particles| - i
      {
        var p := particles[i];
        assert p == ps[j] && p.dead == dead[j];
        SurvivorsStep(ps, dead, j, out);
        DroppedStep(ps, dead, j, gone);
        if p.dead {
          RemoveAt(out, ps, j);
          MinusOneMore(members0, gone, p.sprite);
          Discard(i);
          gone := gone + {p.sprite};
          if j + 1 < n {
            StepOver(out, ps, j + 1);
            out, j := out + [ps[j + 1]], j + 2;
          } else {
            j := n;
          }
        } else {
          StepOver(out, ps, j);
          out, j := out + [p], j + 1;
        }
        i := i + 1;
      }
      assert particles == out + [];
    }
  }
}
