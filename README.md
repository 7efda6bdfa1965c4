# Particle lifecycle engine, modelled in Dafny

This project models the core of a small pyglet particle system (`particles.py`). A
`ParticleSystem` has a bounded list of particles. It emits bursts of particles at a
point. On every tick it advances each particle and then reaps the dead ones. A
`Particle` owns a physical `State` (position, velocity, mass) and a drawable. Each
update does the following:

- it ages the particle;
- it flags the particle dead once its lifespan is over;
- otherwise it interpolates mass, colour and opacity between the start and end
  values of its `ParticleSettings`;
- it takes one explicit Euler step for the position;
- it lets every force of the system act on the velocity.

Modules, one file each:

- `Vectors` (vectors.dfy) holds the numeric helpers.
  - Component-wise vector arithmetic, standing in for numpy arrays.
  - Linear interpolation `Lerp`, with its range and monotonicity.
  - `ApplyForces`, the velocity after the force loop, and its closed form: the net
    force over the mass, times `dt`.
- `Physics` (physics.dfy) holds `State`, a mutable record the particle overwrites.
- `Graphics` (graphics.dfy) holds the pyglet side, reduced to what the particle code
  touches.
  - A `Batch` whose ghost `members` set holds its live drawables.
  - A `Handle` for a sprite or rectangle. It has ghost position, colour and opacity.
    Creating a handle puts it into its batch; `Delete` takes it out.
- `Reaping` (reaping.dfy) holds the index-level specification of the reap loop and
  what it does and does not remove.
- `Particles` (particles.dfy) holds the settings record, the particle, the system and
  the specification functions.
  - `Tick` is the update of one particle as a function on a `Snapshot` of everything
    an update may change.
  - `EmitCount` is the number of particles a burst creates.

The operations are imperative, as in the Python program.

- `Particle.Update` overwrites the flag, the state and the drawable. It runs the
  force loop in `Accelerate`.
- `ParticleSystem.Emit` and `EmitRect` share one emission method, `Spawn`.
  - `Spawn` builds the new particles in a loop (`Burst`).
  - Then it appends them to the list.
- `ParticleSystem.Update` advances every particle in place (`AdvanceAll`). Then it
  runs the reap loop (`ReapDead`).

Every such method is proved against a specification function: `Tick`, `EmitCount`,
`Survivors`, `DroppedSprites` and `Kept`. The lemmas prove properties of those
functions.

**The reap loop.** `ParticleSystem.update` removes entries from the list while a lazy `filter` is
still iterating over that same list. Removing the entry at the iterator's position
shifts the next entry into that slot, so the next entry is passed over in that tick.

- `ReapDead` walks the list with an index. It removes the entry at the index when
  that entry is dead, and it always advances the index.
- `Kept(dead)` lists the positions that survive one pass. The model proves:
  - every live particle survives (`LiveKept`);
  - the survivors keep their order (`KeptIncreasing`);
  - the first dead particle the pass meets is always removed (`FirstDeadRemoved`);
  - when no two dead particles are neighbours, no dead particle survives
    (`NoNeighbouringDeadAllRemoved`);
  - a dead particle survives a pass exactly when it sits right behind a removed one
    (`KeptDeadFollowsRemoved` and its converse `RemovedSkipsNext`). Its position in
    the list then strictly decreases (`DeadMovesForward`).
  - dead particles are reaped within a bounded number of ticks
    (`DeadReapedWithin`). Take the lists before successive reap passes, where each
    list is the survivors of the previous pass followed by newly emitted particles.
    Suppose a particle sits at position `i` before the first pass, is never among
    the new ones and is dead in every pass. Then it is gone after at most `i + 1`
    passes and never returns. The premises hold for the system:
    - the dead flag, once set, stays set (`TickKeepsDead`);
    - emission only appends fresh particles (`Emit`, `EmitRect`).
- `SkippedNeighbour` gives a concrete two-dead-neighbours case in which one dead
  particle is left in the list.
- The list is not claimed to be free of dead particles after an update.
- `list.remove` removes the first entry equal to its argument. Particles compare by
  identity and the list holds each particle once (`Valid`), so `list.remove` removes
  exactly the entry at the iterator's position. That is what `Discard` does.

## Model

| member | source | states |
|---|---|---|
| Vectors.Lerp | particles.py:76-79 | `(1 - t) * a + t * b` equals `a` at t = 0 and `b` at t = 1, and lies between `a` and `b` for every t in [0, 1] |
| Vectors.VLerp | particles.py:86-88 | the colour interpolation has the colours' length, equals the start colour at t = 0 and keeps every component between its start and end values for t in [0, 1] |
| Vectors.LerpMonotone | particles.py:76-79 | the interpolated value is non-decreasing in t when start <= end and non-increasing otherwise, for every t; so for t1 <= t2 <= 1 the later value is no further from the end value |
| Vectors.ApplyForcesSum | particles.py:82-84 | applying the forces one after another adds, per component, the sum of the forces' components divided by the mass, times dt |
| Particles.Phase | particles.py:75 | t = elapsed / lifespan: t times lifespan is the elapsed time, t lies in [0, 1] for an elapsed time within the lifespan and is 0 at elapsed time 0 |
| Particles.TickExpired | particles.py:70-73 | once the elapsed time exceeds the lifespan, an update sets the dead flag and changes nothing else: state and drawable stay as they were |
| Particles.TickKeepsDead | particles.py:70-73 | the dead flag goes only from false to true; after an update it is set exactly when it was set before or the lifespan is over |
| Particles.TickAlive | particles.py:75-92 | within the lifespan the flag is untouched; mass, every colour component and opacity lie between their start and end values and equal the start values at elapsed time 0; the position advances by the pre-update velocity times dt; the drawable is moved to the new position; with no forces the velocity is unchanged |
| Particles.TickVelocity | particles.py:80-84 | within the lifespan the new velocity is the old one plus the net force divided by the new mass, times dt; the forces act after the position step |
| Particles.MassPositive | particles.py:76-79 | with positive start and end masses a particle within its lifespan has positive mass, so the division by the mass on line 83 is defined |
| Particles.MassMonotone | particles.py:76-79 | the mass is non-decreasing in the elapsed time when the start mass is at most the end mass and non-increasing otherwise; within the lifespan it thus moves from the start mass towards the end mass |
| Particles.Particle.constructor | particles.py:49-58 | a new particle holds its drawable, state, creation time, settings and lifespan sample; it is not dead; its drawable takes the start colour and keeps its position and opacity |
| Particles.Particle.Update | particles.py:60-92 | the particle's snapshot after the update is `Tick` of the snapshot before it |
| Particles.Particle.Accelerate | particles.py:82-84 | the force loop leaves position and mass alone and sets the velocity to `ApplyForces` of the old velocity, in list order (unchanged for no forces) |
| Particles.EmitCount | particles.py:131-134 | a burst of `num` creates no particles for num <= 0 and at most `num` otherwise; starting at or below `max_count` the list never passes `max_count`, and with num >= 0 the burst creates `num` particles or exactly enough to reach `max_count`; above `max_count` the check never fires |
| Particles.ParticleSystem.constructor | particles.py:106-111 | a new system has the given capacity, no particles, no forces and a fresh, empty batch |
| Particles.ParticleSystem.Emit | particles.py:113-147 | appends exactly `EmitCount` new sprite particles after the unchanged old list and returns them in creation order; each is fresh, not dead, created at `now` at (x, y) with the start mass and start colour, with a velocity sample within the bounds and a lifespan within the settings' bounds; their drawables join the batch; the system stays valid (capacity, distinctness, batch membership) |
| Particles.ParticleSystem.EmitRect | particles.py:149-190 | the same as Emit, with each particle drawn as a width-by-height rectangle (5 by 5 by default) |
| Particles.ParticleSystem.Spawn | particles.py:129-147 | the emission shared by Emit and EmitRect: the k-th new particle takes the k-th lifespan and velocity samples; the list becomes the old list followed by the new particles |
| Particles.ParticleSystem.Burst | particles.py:130-144 | the loop over `num` stops when the list plus the new particles reaches capacity; it creates `EmitCount` fresh, distinct particles whose drawables are exactly the ones added to the batch |
| Particles.ParticleSystem.NewParticle | particles.py:135-143 | one pass of the loop: a fresh drawable in the batch at (x, y), a fresh state at (x, y) with the sampled velocity and the start mass, and the particle owning both |
| Particles.ParticleSystem.Update | particles.py:192-205 | every particle is advanced once by `Tick` with the same time and forces; the list then holds exactly the particles at the positions `Kept` lists, in their old order; every live particle is kept; a particle's drawable stays in the batch exactly when the particle is kept; the batch loses exactly the drawables of the removed particles and nothing else; the system stays valid |
| Particles.ParticleSystem.AdvanceAll | particles.py:200-201 | the loop over the list advances every particle, in list order, by exactly one `Tick` |
| Particles.ParticleSystem.AdvanceOne | particles.py:201 | updating one particle leaves every other particle's snapshot unchanged |
| Particles.ParticleSystem.ReapDead | particles.py:203-205 | the remove-while-iterating loop leaves `Survivors` of the old list and deletes exactly the drawables in `DroppedSprites` from the batch |
| Particles.ParticleSystem.Discard | particles.py:204-205 | takes the particle at the iterator's position out of the list, then deletes its drawable from the batch; nothing else in the list changes |
| Particles.ReapOutcome | particles.py:203-205 | after a whole pass the list is the particles at the kept positions, in order, no longer than before and still distinct; every live particle is kept; a drawable stays in the batch exactly when its particle is kept |
| Particles.DroppedSpritesAt | particles.py:203-205 | with distinct drawables, a particle's drawable is deleted exactly when the pass removes its position |
| Particles.ReapedSprites | particles.py:203-205 | after a whole pass a particle's drawable is still in the batch exactly when the particle was kept |
| Reaping.KeptFrom | particles.py:203-204 | the positions that survive from `j` on are positions of the list from `j` on, and no more than there are |
| Reaping.KeptIncreasing | particles.py:203-204 | survivors keep their relative order: kept positions strictly increase |
| Reaping.LiveKept | particles.py:203-204 | the pass removes only dead particles: every position whose flag is clear is kept |
| Reaping.FirstDeadRemoved | particles.py:203-204 | the first dead particle the pass meets is removed |
| Reaping.ReapProgress | particles.py:203-204 | if some particle is dead, the pass makes the list strictly shorter |
| Reaping.KeptDeadFollowsRemoved | particles.py:203-204 | a dead particle that survives sat right behind a removed, dead particle |
| Reaping.DeadMovesForward | particles.py:203-204 | a dead survivor's new position is strictly below its old one |
| Reaping.RemovedSkipsNext | particles.py:203-204 | the entry right behind a removed entry is passed over and stays in the list, dead or not |
| Reaping.DeadOnePass | particles.py:203-204 | after one pass followed by appended entries, a dead entry that sat only at position i is either gone or sits only at a position below i |
| Reaping.GoneStaysGone | particles.py:203-204 | an entry that has left the list never comes back when the entries appended after each pass (particles.py:146) never include it |
| Reaping.DeadReapedWithin | particles.py:203-204 | over successive passes with appends in between (particles.py:146), an entry that is dead in every pass and sits at position i is gone after at most i + 1 passes and stays gone |
| Reaping.NoNeighbouringDeadAllRemoved | particles.py:203-204 | when no two dead particles are neighbours, no dead particle survives |
| Reaping.SkippedNeighbour | particles.py:203-204 | of two dead neighbours only the first is removed: [dead, dead] keeps position 1, and [live, dead, dead, live] keeps 0, 2 and 3 |
| Reaping.SurvivorsKept | particles.py:203-204 | the entries the loop leaves are exactly the entries at the kept positions, in order |
| Reaping.SurvivorsPicksKept | particles.py:203-204 | a whole pass leaves, at each index k, the entry at the k-th kept position |
| Reaping.RemovedUnlessKept | particles.py:203-205 | every position is either removed (and its drawable deleted) or kept, never both |
| Physics.State.constructor | physics.py:5-17 | a state holds the given position, velocity and mass |
| Graphics.Batch.constructor | particles.py:111 | a new batch holds no drawables |
| Graphics.Handle.constructor | particles.py:135 | a new drawable sits at (x, y) with white colour and full opacity and joins its batch |
| Graphics.Handle.MoveTo | particles.py:81 | moving a drawable sets its position and keeps its colour and opacity |
| Graphics.Handle.SetColor | particles.py:86-88 | setting the colour leaves position and opacity alone |
| Graphics.Handle.SetOpacity | particles.py:89-92 | setting the opacity leaves position and colour alone |
| Graphics.Handle.Delete | particles.py:205 | deleting a drawable takes it out of its batch |

## Left out

- Not modelled: `ParticleSystem.draw` (particles.py:207-208), the image, and the
  drawing itself. They are foreign library calls. A drawable is a handle with ghost
  position, colour and opacity, plus membership in its batch.
- Not modelled: main.py (window, input, labels, screenshots, scheduler and the
  per-burst random palette) and setup.py. They are driver and packaging code.
- `time.time()` and `np.random.uniform` become parameters.
  - `now` is the clock reading.
  - `lifespans` and `velocities` hold one sample per created particle.
  - `requires` bounds each sample between its two bounds, in either order, as
    `np.random.uniform` does.
- Numbers are mathematical reals, not IEEE doubles.
  - Rounding, overflow, infinities and NaN are not modelled.
  - A division by zero is excluded by a precondition (`Ready`), for a particle that
    has not expired. Its lifespan must be positive (particles.py:75), and its mass
    must be non-zero whenever a force is applied (particles.py:83). An expired
    particle needs neither: it is only flagged dead.
- Particles.Tick: numpy broadcasting is not modelled.
  - Position and velocity must have two components (`Ready`), so a one-component
    velocity that numpy would broadcast is excluded.
  - Every force must have two components.
  - The start and end colours must have one length.
- Pyglet stores colour and opacity as integers. The model keeps the interpolated
  reals.
- Particles.ParticleSystem.Update requires every particle to be ready for the update
  (`ReadyFrom`). It does not model a division by zero in a particle that has not
  expired. A zero lifespan at particles.py:75 raises an error for Python floats. A
  zero mass at particles.py:83 makes numpy produce infinities or NaN for the array
  forces.
- Particles.ParticleSystem.Spawn: the velocity samples must have as many components
  as the lower velocity bound, and the upper bound must be at least as long. The
  program would raise an index error otherwise.
- Particles.ParticleSystem.Emit, EmitRect and Spawn state the new state of the
  particles they create and of the list. They say nothing about particles already
  in the list; those are not in the methods' modifies frame, so they are unchanged.
- Not modelled: the system's `img` attribute. The `ParticleSettings` record is the
  `Settings` datatype.
- Graphics.Handle.MoveTo assumes that both kinds of drawable accept the position
  update the particle sends (particles.py:81). That includes the rectangles that
  `emit_rect` creates (particles.py:176-178). The pyglet version is not pinned, and
  whether its rectangle shape offers that call is not modelled.
