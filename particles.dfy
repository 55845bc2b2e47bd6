/**
 * The particle trail: what one particle is, and the per-frame pass that
 * moves every particle, wears its lifespan down and drops the dead ones.
 */
module Particles {
  import opened Colors

  /** Lifespan of a freshly emitted particle (also its initial opacity). */
  const LIFESPAN: int := 255

  /** How much lifespan a particle loses per frame. */
  const DECAY: int := 2

  /** How many particles one travel frame emits. */
  const EMITTED_PER_FRAME: nat := 2

  datatype Particle = Particle(x: real, y: real, vx: real, vy: real, lifespan: int, color: Color)

  /** One frame for one particle: move by its velocity, lose DECAY of lifespan. */
  function Advance(p: Particle): (q: Particle)
    ensures q.lifespan == p.lifespan - DECAY
    ensures q.vx == p.vx && q.vy == p.vy && q.color == p.color
  {
    p.(x := p.x + p.vx, y := p.y + p.vy, lifespan := p.lifespan - DECAY)
  }

  /**
   * The particle pass of p.draw as a function of the particle list: each
   * particle is advanced, and the one whose lifespan dropped to zero or below
   * is spliced out; the others keep their place.
   */
  function Step(ps: seq<Particle>): (r: seq<Particle>)
    ensures |r| <= |ps|
    ensures forall i :: 0 <= i < |r| ==> r[i].lifespan > 0
  {
    if ps == [] then []
    else
      var q := Advance(ps[0]);
      (if q.lifespan <= 0 then [] else [q]) + Step(ps[1..])
  }

  /** The pass over a suffix handles the suffix's first particle, then the rest. */
  lemma StepUnfold(ps: seq<Particle>, i: nat)
    requires i < |ps|
    ensures Step(ps[i..]) == (if Advance(ps[i]).lifespan <= 0 then [] else [Advance(ps[i])]) + Step(ps[i + 1..])
  {
    assert ps[i..][1..] == ps[i + 1..];
  }

  /** Overwriting the element between `a` and `b` replaces just it. */
  lemma OverwriteMiddle(a: seq<Particle>, previous: Particle, p: Particle, b: seq<Particle>)
    ensures (a + [previous] + b)[|a| := p] == a + [p] + b
  {
    var l, r := (a + [previous] + b)[|a| := p], a + [p] + b;
    assert |l| == |r|;
    forall k | 0 <= k < |l|
      ensures l[k] == r[k]
    {
      if k < |a| {
        assert l[k] == a[k];
      } else if k > |a| {
        assert l[k] == b[k - |a| - 1];
      }
    }
  }

  /** Splicing out the element between `a` and `b` leaves `a + b`. */
  lemma SpliceMiddle(a: seq<Particle>, previous: Particle, b: seq<Particle>)
    ensures (a + [previous] + b)[..|a|] + (a + [previous] + b)[|a| + 1..] == a + b
  {
    var s := a + [previous] + b;
    assert s[..|a|] == a;
    assert s[|a| + 1..] == b;
  }

  /**
   * One iteration of the reverse splice loop: with the suffix after `i`
   * already processed, handling particle `i` (splice it out when the step
   * kills it, overwrite it with its advanced self otherwise) extends the
   * processed suffix by one.
   */
  lemma SpliceStep(before: seq<Particle>, i: nat, current: seq<Particle>)
    requires i < |before| && current == before[..i + 1] + Step(before[i + 1..])
    ensures current[i] == before[i]
    ensures Advance(before[i]).lifespan <= 0 ==>
              current[..i] + current[i + 1..] == before[..i] + Step(before[i..])
    ensures Advance(before[i]).lifespan > 0 ==>
              current[i := Advance(before[i])] == before[..i] + Step(before[i..])
  {
    var a, rest, q := before[..i], Step(before[i + 1..]), Advance(before[i]);
    StepUnfold(before, i);
    assert before[..i + 1] == a + [before[i]];
    assert current == a + [before[i]] + rest;
    if q.lifespan <= 0 {
      assert Step(before[i..]) == rest;
      SpliceMiddle(a, before[i], rest);
    } else {
      assert Step(before[i..]) == [q] + rest;
      OverwriteMiddle(a, before[i], q, rest);
      assert a + [q] + rest == a + ([q] + rest);
    }
  }

  /** Reference definition: the particles whose lifespan exceeds DECAY, in order. */
  function Survivors(ps: seq<Particle>): (r: seq<Particle>)
  {
    if ps == [] then []
    else (if ps[0].lifespan > DECAY then [ps[0]] else []) + Survivors(ps[1..])
  }

  /** Every particle of a list advanced by one frame. */
  function AdvanceAll(ps: seq<Particle>): (r: seq<Particle>)
    ensures |r| == |ps|
    ensures forall i :: 0 <= i < |ps| ==> r[i] == Advance(ps[i])
  {
    seq(|ps|, i requires 0 <= i < |ps| => Advance(ps[i]))
  }

  lemma AdvanceAllAppend(a: seq<Particle>, b: seq<Particle>)
    ensures AdvanceAll(a + b) == AdvanceAll(a) + AdvanceAll(b)
  {
    var l, r := AdvanceAll(a + b), AdvanceAll(a) + AdvanceAll(b);
    assert |l| == |r|;
    forall i | 0 <= i < |l|
      ensures l[i] == r[i]
    {
      if i < |a| {
        assert (a + b)[i] == a[i];
      } else {
        assert (a + b)[i] == b[i - |a|];
      }
    }
  }

  /**
   * The pass keeps exactly the particles whose lifespan exceeded DECAY, in
   * their original relative order, each advanced by one frame; it adds none.
   */
  lemma {:induction false} StepIsAdvancedSurvivors(ps: seq<Particle>)
    ensures Step(ps) == AdvanceAll(Survivors(ps))
  {
    if ps != [] {
      StepIsAdvancedSurvivors(ps[1..]);
      var head := if ps[0].lifespan > DECAY then [ps[0]] else [];
      assert Survivors(ps) == head + Survivors(ps[1..]);
      AdvanceAllAppend(head, Survivors(ps[1..]));
      assert AdvanceAll(head) == if Advance(ps[0]).lifespan <= 0 then [] else [Advance(ps[0])];
    }
  }

  /** Number of particles whose lifespan exceeds DECAY. */
  function CountSurvivors(ps: seq<Particle>): nat
  {
    if ps == [] then 0 else (if ps[0].lifespan > DECAY then 1 else 0) + CountSurvivors(ps[1..])
  }

  /** After the pass, the list holds one particle per survivor. */
  lemma {:induction false} StepCount(ps: seq<Particle>)
    ensures |Step(ps)| == CountSurvivors(ps)
  {
    if ps != [] {
      StepCount(ps[1..]);
    }
  }

  /** Every lifespan lies in (0, bound]. */
  ghost predicate LifespansWithin(ps: seq<Particle>, bound: int)
  {
    forall i :: 0 <= i < |ps| ==> 0 < ps[i].lifespan <= bound
  }

  /** Appending particles within the bound keeps the whole list within it. */
  lemma LifespansWithinAppend(ps: seq<Particle>, born: seq<Particle>, bound: int)
    requires LifespansWithin(ps, bound) && LifespansWithin(born, bound)
    ensures LifespansWithin(ps + born, bound)
  {
    forall k | |ps| <= k < |ps + born|
      ensures 0 < (ps + born)[k].lifespan <= bound
    {
      assert (ps + born)[k] == born[k - |ps|];
    }
  }

  /** Every particle loses DECAY per frame: the whole list's bound drops by DECAY. */
  lemma {:induction false} StepLowersLifespans(ps: seq<Particle>, bound: int)
    requires LifespansWithin(ps, bound)
    ensures LifespansWithin(Step(ps), bound - DECAY)
  {
    if ps != [] {
      StepLowersLifespans(ps[1..], bound);
      var q := Advance(ps[0]);
      var head := if q.lifespan <= 0 then [] else [q];
      assert Step(ps) == head + Step(ps[1..]);
      forall i | 0 <= i < |Step(ps)|
        ensures 0 < Step(ps)[i].lifespan <= bound - DECAY
      {
        if i >= |head| {
          assert Step(ps)[i] == Step(ps[1..])[i - |head|];
        }
      }
    }
  }

  /** `frames` consecutive particle passes with no emission in between. */
  function StepN(ps: seq<Particle>, frames: nat): seq<Particle>
    decreases frames
  {
    if frames == 0 then ps else StepN(Step(ps), frames - 1)
  }

  /**
   * Without new emissions, every particle dies: once `frames` passes have
   * taken DECAY each away from lifespans of at most DECAY * frames, the list
   * is empty.
   */
  lemma {:induction false} StepNExpires(ps: seq<Particle>, frames: nat)
    requires LifespansWithin(ps, DECAY * frames)
    ensures StepN(ps, frames) == []
    decreases frames
  {
    if frames > 0 {
      StepLowersLifespans(ps, DECAY * frames);
      StepNExpires(Step(ps), frames - 1);
    }
  }

  /** A freshly emitted particle is dead after 128 frames at most. */
  lemma FreshParticlesExpire(ps: seq<Particle>)
    requires LifespansWithin(ps, LIFESPAN)
    ensures StepN(ps, 128) == []
  {
    assert LifespansWithin(ps, DECAY * 128);
    StepNExpires(ps, 128);
  }
}
