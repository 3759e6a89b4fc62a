/** The highlight colour of ff/coloring.go: a nest-level counter that turns
    the terminal colour on when the first highlight opens and off when the
    last one closes, and the walk that prints a line of code points with
    highlight markers in it. The terminal is modelled by the list of what is
    sent to it. */
module Coloring {
  import opened Wrappers

  /** colorRuneBegin and colorRuneEnd: the markers in an output line. */
  const ColorRuneBegin: int := -1
  const ColorRuneEnd: int := -2

  const PopUnderflow := "No more coloring to pop"

  /** What reaches the terminal: a code point, a flush of the output
      buffer, the highlight colour switched on, the colour reset. */
  datatype Event = Put(c: int) | Flush | SetColor | UnsetColor

  /** The nest level and everything sent to the terminal so far. */
  datatype Screen = Screen(level: nat, events: seq<Event>)

  // ---------------------------------------------------------------------
  // Specification

  /** pushColoring on a screen. */
  function Push(s: Screen): (r: Screen)
    ensures r.level == s.level + 1
  {
    if s.level == 0 then Screen(1, s.events + [Flush, SetColor]) else Screen(s.level + 1, s.events)
  }

  /** popColoring on a screen, with false for the panic at level 0. */
  function Pop(s: Screen): (r: (Screen, bool))
    ensures r.1 <==> s.level > 0
    ensures r.1 ==> r.0.level == s.level - 1
    ensures !r.1 ==> r.0 == s
  {
    if s.level == 0 then (s, false)
    else if s.level == 1 then (Screen(0, s.events + [Flush, UnsetColor]), true)
    else (Screen(s.level - 1, s.events), true)
  }

  /** One element of putIntArrayWithColors: a code point is printed, the
      two markers push and pop, any other negative number is ignored. */
  function Step(s: Screen, c: int): (Screen, bool)
  {
    if c >= 0 then (Screen(s.level, s.events + [Put(c)]), true)
    else if c == ColorRuneBegin then (Push(s), true)
    else if c == ColorRuneEnd then Pop(s)
    else (s, true)
  }

  /** The walk over a whole array, stopping at the first failed pop with
      the screen as it was then. */
  function Walk(s: Screen, cs: seq<int>): (Screen, bool)
    decreases |cs|
  {
    if cs == [] then (s, true)
    else
      var (p, ok) := Walk(s, cs[..|cs| - 1]);
      if !ok then (p, false) else Step(p, cs[|cs| - 1])
  }

  /** Once a pop has failed, the rest of the array changes nothing. */
  lemma {:induction false} WalkStops(s: Screen, cs: seq<int>, k: nat)
    requires k <= |cs| && !Walk(s, cs[..k]).1
    ensures Walk(s, cs) == Walk(s, cs[..k])
    decreases |cs| - k
  {
    if k < |cs| {
      assert cs[..k + 1][..k] == cs[..k];
      WalkStops(s, cs, k + 1);
    } else {
      assert cs[..k] == cs;
    }
  }

  // ---------------------------------------------------------------------
  // Properties

  /** The net nesting of an array: markers that open minus markers that
      close. */
  function Depth(cs: seq<int>): int
    decreases |cs|
  {
    if cs == [] then 0
    else
      Depth(cs[..|cs| - 1])
      + (if cs[|cs| - 1] == ColorRuneBegin then 1 else if cs[|cs| - 1] == ColorRuneEnd then -1 else 0)
  }

  /** No prefix of the array closes more highlights than `level` plus those
      it opened. */
  predicate NeverBelow(level: nat, cs: seq<int>)
  {
    forall k :: 0 <= k <= |cs| ==> level + Depth(cs[..k]) >= 0
  }

  /** The walk succeeds exactly when no prefix pops below zero, and it
      ends at the starting level plus the net nesting. */
  lemma {:induction false} WalkLevel(s: Screen, cs: seq<int>)
    ensures Walk(s, cs).1 <==> NeverBelow(s.level, cs)
    ensures Walk(s, cs).1 ==> Walk(s, cs).0.level == s.level + Depth(cs)
    decreases |cs|
  {
    if cs == [] {
      assert cs[..0] == cs;
    } else {
      var init := cs[..|cs| - 1];
      WalkLevel(s, init);
      assert cs[..|cs|] == cs;
      forall k | 0 <= k <= |init| ensures cs[..k] == init[..k] {
      }
      if NeverBelow(s.level, cs) {
        assert NeverBelow(s.level, init);
      }
    }
  }

  /** A balanced array (every close after its open, as many of each) is
      printed without a panic and leaves the level where it was. */
  lemma BalancedRestoresLevel(s: Screen, cs: seq<int>)
    requires NeverBelow(0, cs) && Depth(cs) == 0
    ensures Walk(s, cs).1 && Walk(s, cs).0.level == s.level
  {
    WalkLevel(s, cs);
  }

  /** The code points sent to the terminal. */
  function Puts(es: seq<Event>): seq<int>
    decreases |es|
  {
    if es == [] then []
    else Puts(es[..|es| - 1]) + (if es[|es| - 1].Put? then [es[|es| - 1].c] else [])
  }

  lemma PutsAppend(a: seq<Event>, b: seq<Event>)
    ensures Puts(a + b) == Puts(a) + Puts(b)
    decreases |b|
  {
    if b != [] {
      assert (a + b)[..|a + b| - 1] == a + b[..|b| - 1];
      PutsAppend(a, b[..|b| - 1]);
    } else {
      assert a + b == a;
    }
  }

  /** The non-negative numbers of an array, in order. */
  function CodePointsOf(cs: seq<int>): seq<int>
    decreases |cs|
  {
    if cs == [] then []
    else CodePointsOf(cs[..|cs| - 1]) + (if cs[|cs| - 1] >= 0 then [cs[|cs| - 1]] else [])
  }

  /** One successful step prints the element if it is a code point and
      only appends. */
  lemma StepPuts(p: Screen, c: int)
    requires Step(p, c).1
    ensures Puts(Step(p, c).0.events) == Puts(p.events) + (if c >= 0 then [c] else [])
    ensures p.events <= Step(p, c).0.events
  {
    var q := Step(p, c).0;
    if c >= 0 {
      PutsAppend(p.events, [Put(c)]);
      assert Puts([Put(c)]) == Puts([]) + [c];
    } else if q.events == p.events {
      assert Puts(p.events) + [] == Puts(p.events);
    } else {
      var added := q.events[|p.events|..];
      assert q.events == p.events + added;
      assert added == [Flush, SetColor] || added == [Flush, UnsetColor];
      PutsAppend(p.events, added);
      assert added[..1] == [Flush] && [Flush][..0] == [];
      assert Puts([Flush]) == [];
      assert Puts(added) == Puts(added[..1]);
    }
  }

  /** A successful walk prints exactly the non-negative numbers of the
      array, in order, and only appends to what was sent before. */
  lemma {:induction false} WalkPuts(s: Screen, cs: seq<int>)
    requires Walk(s, cs).1
    ensures Puts(Walk(s, cs).0.events) == Puts(s.events) + CodePointsOf(cs)
    ensures s.events <= Walk(s, cs).0.events
    decreases |cs|
  {
    hide Step, Puts;
    if cs == [] {
      assert Puts(s.events) + [] == Puts(s.events);
    } else {
      var init := cs[..|cs| - 1];
      var c := cs[|cs| - 1];
      WalkPuts(s, init);
      StepPuts(Walk(s, init).0, c);
    }
  }

  /** The colour is on: the last colour event sent switched it on. */
  function ColorOn(es: seq<Event>): bool
    decreases |es|
  {
    if es == [] then false
    else if es[|es| - 1] == SetColor then true
    else if es[|es| - 1] == UnsetColor then false
    else ColorOn(es[..|es| - 1])
  }

  /** The highlight colour is on exactly while some highlight is open. */
  predicate InSync(s: Screen)
  {
    ColorOn(s.events) <==> s.level > 0
  }

  lemma ColorOnAfterPut(es: seq<Event>, c: int)
    ensures ColorOn(es + [Put(c)]) == ColorOn(es)
  {
    assert (es + [Put(c)])[..|es|] == es;
  }

  /** Every step keeps the colour in step with the nest level. */
  lemma StepInSync(s: Screen, c: int)
    requires InSync(s)
    ensures InSync(Step(s, c).0)
  {
    if c >= 0 {
      ColorOnAfterPut(s.events, c);
    }
  }

  lemma {:induction false} WalkInSync(s: Screen, cs: seq<int>)
    requires InSync(s)
    ensures InSync(Walk(s, cs).0)
    decreases |cs|
  {
    if cs != [] {
      WalkInSync(s, cs[..|cs| - 1]);
      var (p, ok) := Walk(s, cs[..|cs| - 1]);
      if ok {
        StepInSync(p, cs[|cs| - 1]);
      }
    }
  }

  // ---------------------------------------------------------------------
  // The counter and the terminal, updated in place

  class Colorizer {
    var colorNestLevel: nat
    var events: seq<Event>

    function State(): Screen
      reads this
    {
      Screen(colorNestLevel, events)
    }

    constructor ()
      ensures State() == Screen(0, [])
    {
      colorNestLevel := 0;
      events := [];
    }

    /** pushColoring: one level deeper; the colour goes on at the first. */
    method PushColoring()
      modifies this
      ensures State() == Push(old(State()))
      ensures InSync(old(State())) ==> InSync(State())
    {
      colorNestLevel := colorNestLevel + 1;
      if colorNestLevel == 1 {
        events := events + [Flush, SetColor];
      }
    }

    /** popColoring: fatal at level 0; otherwise one level up, and the
        colour goes off when the last level closes. */
    method PopColoring() returns (r: Result<()>)
      modifies this
      ensures (State(), r.Ok?) == Pop(old(State()))
      ensures r.Fail? ==> r.message == PopUnderflow
      ensures InSync(old(State())) ==> InSync(State())
    {
      if colorNestLevel == 0 {
        return Fail(PopUnderflow);
      }
      colorNestLevel := colorNestLevel - 1;
      if colorNestLevel == 0 {
        events := events + [Flush, UnsetColor];
      }
      return Ok(());
    }

    /** resetColoring: back to level 0 with the colour off. */
    method ResetColoring()
      modifies this
      ensures State() == Screen(0, old(events) + [Flush, UnsetColor])
      ensures InSync(State())
    {
      colorNestLevel := 0;
      events := events + [Flush, UnsetColor];
    }

    /** putIntArrayWithColors: the walk over the array, stopping at the
        first pop below level 0. */
    method PutIntArrayWithColors(codes: seq<int>) returns (r: Result<()>)
      modifies this
      ensures (State(), r.Ok?) == Walk(old(State()), codes)
      ensures r.Fail? ==> r.message == PopUnderflow
    {
      ghost var s0 := State();
      var i := 0;
      while i < |codes|
        invariant 0 <= i <= |codes|
        invariant Walk(s0, codes[..i]) == (State(), true)
      {
        assert codes[..i + 1][..i] == codes[..i];
        var c := codes[i];
        if c >= 0 {
          events := events + [Put(c)];
        } else if c == ColorRuneBegin {
          PushColoring();
        } else if c == ColorRuneEnd {
          r := PopColoring();
          if r.Fail? {
            WalkStops(s0, codes, i + 1);
            return;
          }
        }
        i := i + 1;
      }
      assert codes[..i] == codes;
      return Ok(());
    }
  }
}
