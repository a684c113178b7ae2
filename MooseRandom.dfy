/** The independent random streams of framework/include/utils/MooseRandom.h: a map from
    generator id to a pair of states, the active one and a backup, with save and restore
    over all of them. A generator state `S` is opaque; the library calls that seed it and
    draw from it (`mts_seed32new`, `mts_ldrand`, `rds_normal`, `mts_lrand`) are parameters. */
module MooseRandoms {
  const UINT_LIMIT: int := 0x1_0000_0000

  /** `unsigned int`, also standing for `uint32_t`. */
  type uint = x: int | 0 <= x < UINT_LIMIT

  /** `_states`: generator id to (active state, backup state). */
  type States<S> = map<uint, (S, S)>

  /** The states after `saveState()`: each backup is overwritten with its active state. */
  function Saved<S>(m: States<S>): States<S>
  {
    map k | k in m :: (m[k].0, m[k].0)
  }

  /** The states after `restoreState()`: each active state is overwritten with its backup. */
  function Restored<S>(m: States<S>): States<S>
  {
    map k | k in m :: (m[k].1, m[k].1)
  }

  /** The states after `seed(i, s)`: generator `i`'s active state is reseeded (an unknown id is
      first added with `zero` states, as `operator[]` does); nothing else changes. */
  function Seeded<S>(m: States<S>, i: uint, reseeded: S, zero: S): States<S>
  {
    m[i := (reseeded, if i in m then m[i].1 else zero)]
  }

  /** Neither save nor restore adds or removes a generator. */
  lemma {:induction false} SaveRestoreKeepIds<S>(m: States<S>)
    ensures Saved(m).Keys == m.Keys && Restored(m).Keys == m.Keys
  {
  }

  /** Restoring right after saving leaves every active state as it was. */
  lemma {:induction false} RestoreAfterSave<S>(m: States<S>)
    ensures Restored(Saved(m)) == Saved(m)
    ensures forall k :: k in m ==> Restored(Saved(m))[k].0 == m[k].0
  {
  }

  lemma {:induction false} SaveIdempotent<S>(m: States<S>)
    ensures Saved(Saved(m)) == Saved(m)
  {
  }

  lemma {:induction false} RestoreIdempotent<S>(m: States<S>)
    ensures Restored(Restored(m)) == Restored(m)
  {
  }

  /** After a save, reseeding a generator is undone by a restore: every generator there was
      at the save gets back the active state it had then. */
  lemma {:induction false} RestoreUndoesSeed<S>(m: States<S>, i: uint, reseeded: S, zero: S, j: uint)
    requires j in m
    ensures Restored(Seeded(Saved(m), i, reseeded, zero))[j].0 == m[j].0
  {
  }

  /** After a save, a draw from generator `i` (which moves its active state to `next` and
      keeps its backup) is undone by a restore as well. */
  lemma {:induction false} RestoreUndoesDraw<S>(m: States<S>, i: uint, next: S, j: uint)
    requires i in m && j in m
    ensures Restored(Saved(m)[i := (next, Saved(m)[i].1)])[j].0 == m[j].0
  {
  }

  /** Seeding changes generator `i`'s active state and nothing else, adding `i` if needed. */
  lemma {:induction false} SeedChangesOnlyOne<S>(m: States<S>, i: uint, reseeded: S, zero: S)
    ensures var r := Seeded(m, i, reseeded, zero);
      r.Keys == m.Keys + {i} && r[i].0 == reseeded
      && (i in m ==> r[i].1 == m[i].1)
      && forall k :: k in m && k != i ==> r[k] == m[k]
  {
  }

  class MooseRandom<S> {
    /** The state a generator id gets when `_states[i]` first mentions it. */
    const zero: S
    var states: States<S>

    constructor(zero: S)
      ensures this.zero == zero && states == map[]
    {
      this.zero := zero;
      states := map[];
    }

    /** `seed(i, seed)`, with `seeder` for `mts_seed32new`. */
    method Seed(i: uint, seed: uint, seeder: uint -> S)
      modifies this
      ensures states == Seeded(old(states), i, seeder(seed), zero)
    {
      var backup := if i in states then states[i].1 else zero;
      states := states[i := (seeder(seed), backup)];
    }

    /** `rand(i)`: a draw from generator `i`, which must have been seeded. `draw` stands for
        `mts_ldrand`: the number in [0, 1) and the advanced state are its result. */
    method Rand(i: uint, draw: S -> (real, S)) returns (x: real)
      requires i in states
      modifies this
      ensures x == draw(old(states)[i].0).0
      ensures states == old(states)[i := (draw(old(states)[i].0).1, old(states)[i].1)]
    {
      var (v, next) := draw(states[i].0);
      states := states[i := (next, states[i].1)];
      x := v;
    }

    /** `randNormal(i, mean, sigma)`, with `draw` for `rds_normal`. */
    method RandNormal(i: uint, mean: real, sigma: real, draw: (S, real, real) -> (real, S)) returns (x: real)
      requires i in states
      modifies this
      ensures x == draw(old(states)[i].0, mean, sigma).0
      ensures states == old(states)[i := (draw(old(states)[i].0, mean, sigma).1, old(states)[i].1)]
    {
      var (v, next) := draw(states[i].0, mean, sigma);
      states := states[i := (next, states[i].1)];
      x := v;
    }

    /** `randNormal(i)`: the standard normal distribution. */
    method RandStandardNormal(i: uint, draw: (S, real, real) -> (real, S)) returns (x: real)
      requires i in states
      modifies this
      ensures x == draw(old(states)[i].0, 0.0, 1.0).0
      ensures states == old(states)[i := (draw(old(states)[i].0, 0.0, 1.0).1, old(states)[i].1)]
    {
      x := RandNormal(i, 0.0, 1.0, draw);
    }

    /** `randl(i)`, with `draw` for `mts_lrand`. */
    method Randl(i: uint, draw: S -> (uint, S)) returns (x: uint)
      requires i in states
      modifies this
      ensures x == draw(old(states)[i].0).0
      ensures states == old(states)[i := (draw(old(states)[i].0).1, old(states)[i].1)]
    {
      var (v, next) := draw(states[i].0);
      states := states[i := (next, states[i].1)];
      x := v;
    }

    /** `saveState()`: each generator in turn copies its active state into its backup. */
    method SaveState()
      modifies this
      ensures states == Saved(old(states))
    {
      var todo := states.Keys;
      ghost var done: set<uint> := {};
      while todo != {}
        invariant states.Keys == old(states).Keys && todo + done == states.Keys && todo !! done
        invariant forall k :: k in done ==> states[k] == (old(states)[k].0, old(states)[k].0)
        invariant forall k :: k in todo ==> states[k] == old(states)[k]
        decreases |todo|
      {
        var k :| k in todo;
        states := states[k := (states[k].0, states[k].0)];
        todo, done := todo - {k}, done + {k};
      }
    }

    /** `restoreState()`: each generator in turn copies its backup into its active state. */
    method RestoreState()
      modifies this
      ensures states == Restored(old(states))
    {
      var todo := states.Keys;
      ghost var done: set<uint> := {};
      while todo != {}
        invariant states.Keys == old(states).Keys && todo + done == states.Keys && todo !! done
        invariant forall k :: k in done ==> states[k] == (old(states)[k].1, old(states)[k].1)
        invariant forall k :: k in todo ==> states[k] == old(states)[k]
        decreases |todo|
      {
        var k :| k in todo;
        states := states[k := (states[k].1, states[k].1)];
        todo, done := todo - {k}, done + {k};
      }
    }
  }
}
