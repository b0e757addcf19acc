/**
 Texts too short to exhaust the failure stack, whatever the pattern; and no end returned is before the start.
 */
module RegexLimits {
  import opened RegexAst
  import opened RegexCode
  import opened RegexTrace
  import opened RegexGreedy
  import opened RegexLayout
  import opened RegexTheorems

  // ---------- The failure stack ----------

  ghost predicate Roomy(evs: seq<Event>) { forall n: nat | n < |evs| :: evs[n].Hit? }

  ghost predicate Enough(t: Text, d: nat, depth: nat) { d <= |t| && depth + (|t| - d) < MAX_POINTS }

  lemma RoomyBoth(x: seq<Event>, y: seq<Event>)
    requires Roomy(x) && Roomy(y)
    ensures Roomy(x + y)
  {
  }

  lemma {:induction false} EvRoomy(items: seq<Item>, t: Text, s: nat, b: Branch, k: nat, d: nat, depth: nat)
    requires Region(items, t, s, b) && k <= |b| && Enough(t, d, depth)
    ensures Roomy(Ev(items, t, s + k, d, depth))
    decreases |b| - k, |t| - d, 2
  {
    if k < |b| {
      match b[k]
      case Exact(str) => if Occurs(str, t, d) { EvRoomy(items, t, s, b, k + 1, d + |str|, depth); }
      case One(atom) => if Unit(atom, t, d) { EvRoomy(items, t, s, b, k + 1, d + 1, depth); }
      case Anchor(spot) => EvRoomy(items, t, s, b, k + 1, d, depth);
      case Rep(atom, Star) => LoopRoomy(items, t, s, b, k, d, depth);
      case Rep(atom, Plus) =>
        if Unit(atom, t, d) {
          LoopRoomy(items, t, s, b, k, d + 1, if PopChosen(items, s + k) then depth else depth + 1);
        }
      case Rep(atom, Quest) =>
        EvRoomy(items, t, s, b, k + 1, d, depth);
        assert Roomy(Resume(items, t, s + k + 1, d, depth));
        if Unit(atom, t, d) {
          EvRoomy(items, t, s, b, k + 1, d + 1, depth + 1);
          RoomyBoth(Ev(items, t, s + k + 1, d + 1, depth + 1), Resume(items, t, s + k + 1, d, depth));
        }
      case Rep(atom, Interval(lo, hi)) =>
        if hi == 0 { EvRoomy(items, t, s, b, k + 1, d, depth); } else { CountRoomy(items, t, s, b, k, 0, d, depth); }
    }
  }

  lemma {:induction false} LoopRoomy(items: seq<Item>, t: Text, s: nat, b: Branch, k: nat, d: nat, depth: nat)
    requires Region(items, t, s, b) && k < |b| && IsLoop(items, s + k) && Enough(t, d, depth)
    ensures Roomy(Loop(items, t, s + k, d, depth))
    decreases |b| - k, |t| - d, 0
  {
    EvRoomy(items, t, s, b, k + 1, d, depth);
    assert Roomy(Resume(items, t, s + k + 1, d, depth));
    if Unit(b[k].atom, t, d) {
      LoopRoomy(items, t, s, b, k, d + 1, if PopChosen(items, s + k) then depth else depth + 1);
      if !PopChosen(items, s + k) {
        RoomyBoth(Loop(items, t, s + k, d + 1, depth + 1), Resume(items, t, s + k + 1, d, depth));
      }
    }
  }

  lemma {:induction false} CountRoomy(items: seq<Item>, t: Text, s: nat, b: Branch, k: nat, c: nat, d: nat, depth: nat)
    requires Region(items, t, s, b) && k < |b| && IsCounted(items, s + k) && c < b[k].q.hi && Enough(t, d, depth)
    ensures Roomy(Count(items, t, s + k, c, d, depth))
    decreases |b| - k, |t| - d, 0
  {
    EvRoomy(items, t, s, b, k + 1, d, depth);
    assert Roomy(Resume(items, t, s + k + 1, d, depth));
    if Unit(b[k].atom, t, d) {
      var more := if c < b[k].q.lo then depth else depth + 1;
      if c + 1 < b[k].q.hi {
        CountRoomy(items, t, s, b, k, c + 1, d + 1, more);
      } else {
        EvRoomy(items, t, s, b, k + 1, d + 1, more);
      }
      RoomyBoth(Again(items, t, s + k, c + 1, d + 1, more), Resume(items, t, s + k + 1, d, depth));
    }
  }

  lemma AltRoomy(bs: seq<Branch>, items: seq<Item>, t: Text, a: nat, pos: nat, depth: nat)
    requires Laid(bs, items) && a < |bs| && Enough(t, pos, depth)
    ensures PiecesOf(bs, a) <= |items| && Roomy(Ev(items, t, PiecesOf(bs, a), pos, depth))
  {
    AltEnds(bs, items, t, a);
    assert AltAt(bs, items, a);
    assert Region(items, t, PiecesOf(bs, a), bs[a]);
    EvRoomy(items, t, PiecesOf(bs, a), bs[a], 0, pos, depth);
  }

  lemma {:induction false} AllRoomy(bs: seq<Branch>, items: seq<Item>, t: Text, a: nat, pos: nat)
    requires Laid(bs, items) && a < |bs| && Enough(t, pos, if |bs| == 1 then 0 else 1)
    ensures Begin(bs, a) <= |items| && Roomy(Ev(items, t, Begin(bs, a), pos, 0))
    decreases |bs| - a
  {
    assert AltAt(bs, items, a);
    if a == |bs| - 1 {
      AltRoomy(bs, items, t, a, pos, 0);
    } else {
      AltRoomy(bs, items, t, a, pos, 1);
      AllRoomy(bs, items, t, a + 1, pos);
      assert AltAt(bs, items, a + 1);
      ForkRoomy(items, t, Begin(bs, a), pos);
    }
  }

  lemma ForkRoomy(items: seq<Item>, t: Text, i: nat, d: nat)
    requires Linked(items) && i < |items| && items[i].Fork? && i + items[i].span <= |items| && d <= |t|
    requires Roomy(Ev(items, t, i + 1, d, 1)) && Roomy(Ev(items, t, i + items[i].span, d, 0))
    ensures Roomy(Ev(items, t, i, d, 0))
  {
  }

  lemma {:induction false} OutcomeRoomy(evs: seq<Event>, best: int, size: nat)
    requires Roomy(evs) && best >= -1
    ensures Outcome(evs, best, size) >= -1
    decreases |evs|
  {
    if evs != [] { OutcomeRoomy(evs[1..], if evs[0].end > best then evs[0].end else best, size); }
  }

  /** Every failure point but one is paid for by a byte of the text: the matcher does not run out of
      room on what is left of a text of fewer than 2559 bytes (2560 without alternation). */
  lemma ShortTextsFit(bs: seq<Branch>, items: seq<Item>, t: Text, pos: nat)
    requires Laid(bs, items) && Enough(t, pos, if |bs| == 1 then 0 else 1)
    ensures MatchResult(items, t, pos) != -2
  {
    AllRoomy(bs, items, t, 0, pos);
    OutcomeRoomy(Ev(items, t, 0, pos, 0), -1, |t|);
    var out := Outcome(Ev(items, t, 0, pos, 0), -1, |t|);
    assert out >= -1;
    if out >= 0 { OutcomeEnds(bs, items, t, pos); }
  }

  // A returned end is not before the start.
  lemma OutcomeEnds(bs: seq<Branch>, items: seq<Item>, t: Text, pos: nat)
    requires Laid(bs, items) && pos <= |t|
    ensures var out := Outcome(Ev(items, t, 0, pos, 0), -1, |t|); out >= 0 ==> out >= pos
  {
    EndsAfter(items, t, 0, pos, 0);
    OutcomeAfter(Ev(items, t, 0, pos, 0), -1, |t|, pos);
  }

  ghost predicate After(evs: seq<Event>, d: nat) { forall n: nat | n < |evs| && evs[n].Hit? :: evs[n].end >= d }

  lemma {:induction false} OutcomeAfter(evs: seq<Event>, best: int, size: nat, d: nat)
    requires After(evs, d) && (best >= 0 ==> best >= d)
    ensures var out := Outcome(evs, best, size); out >= 0 ==> out >= d
    decreases |evs|
  {
    if evs != [] && evs[0].Hit? { OutcomeAfter(evs[1..], if evs[0].end > best then evs[0].end else best, size, d); }
  }

  lemma {:induction false} EndsAfter(items: seq<Item>, t: Text, i: nat, d: nat, depth: nat)
    requires Linked(items) && i <= |items| && d <= |t|
    ensures After(Ev(items, t, i, d, depth), d)
    decreases |items| - i, |t| - d, 1
  {
    if i < |items| {
      assert LinkAt(items, i);
      match items[i]
      case Fork(span, _) =>
        EndsAfter(items, t, i + 1, d, depth + 1);
        EndsAfter(items, t, i + span, d, depth);
      case Past(hop, _) => EndsAfter(items, t, i + hop, d, depth);
      case Term(Exact(s)) => if Occurs(s, t, d) { EndsAfter(items, t, i + 1, d + |s|, depth); }
      case Term(One(atom)) => if Unit(atom, t, d) { EndsAfter(items, t, i + 1, d + 1, depth); }
      case Term(Anchor(spot)) => EndsAfter(items, t, i + 1, d, depth);
      case Term(Rep(atom, Star)) => LoopEndsAfter(items, t, i, d, depth);
      case Term(Rep(atom, Plus)) =>
        if Unit(atom, t, d) { LoopEndsAfter(items, t, i, d + 1, if PopChosen(items, i) then depth else depth + 1); }
      case Term(Rep(atom, Quest)) =>
        EndsAfter(items, t, i + 1, d, depth);
        if Unit(atom, t, d) { EndsAfter(items, t, i + 1, d + 1, depth + 1); }
      case Term(Rep(atom, Interval(lo, hi))) =>
        if hi == 0 { EndsAfter(items, t, i + 1, d, depth); } else { CountEndsAfter(items, t, i, 0, d, depth); }
    }
  }

  lemma {:induction false} LoopEndsAfter(items: seq<Item>, t: Text, i: nat, d: nat, depth: nat)
    requires Linked(items) && IsLoop(items, i) && d <= |t|
    ensures After(Loop(items, t, i, d, depth), d)
    decreases |items| - i, |t| - d, 0
  {
    EndsAfter(items, t, i + 1, d, depth);
    if Unit(items[i].piece.atom, t, d) {
      LoopEndsAfter(items, t, i, d + 1, if PopChosen(items, i) then depth else depth + 1);
    }
  }

  lemma {:induction false} CountEndsAfter(items: seq<Item>, t: Text, i: nat, c: nat, d: nat, depth: nat)
    requires Linked(items) && IsCounted(items, i) && c < items[i].piece.q.hi && d <= |t|
    ensures After(Count(items, t, i, c, d, depth), d)
    decreases |items| - i, |t| - d, 0
  {
    EndsAfter(items, t, i + 1, d, depth);
    if Unit(items[i].piece.atom, t, d) {
      var more := if c < items[i].piece.q.lo then depth else depth + 1;
      if c + 1 < items[i].piece.q.hi {
        CountEndsAfter(items, t, i, c + 1, d + 1, more);
      } else {
        EndsAfter(items, t, i + 1, d + 1, more);
      }
    }
  }
}
