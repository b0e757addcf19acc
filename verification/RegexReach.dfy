/**
 Why the first success of greedy backtracking is the longest. A branch is read one byte at a time:
 a cursor is a piece index and the number of bytes already given to that piece. The exchange lemma
 splices two runs of the same branch where they meet.
 */
module RegexReach {
  import opened RegexAst

  predicate CanLeave(q: Quant, c: nat) { c >= q.Least() }

  predicate CanTake(q: Quant, c: nat) { q.Bounded() ==> c < q.Most() }

  // Repetitions beyond the least are not counted when there is no upper bound.
  function Taken(q: Quant, c: nat): nat { if !q.Bounded() && c >= q.Least() then c else c + 1 }

  // From cursor (k, c) of branch b at text position x, the branch can end at e.
  ghost predicate Reach(b: Branch, t: Text, k: nat, c: nat, x: nat, e: nat)
    requires k <= |b| && x <= |t|
    decreases |t| - x, |b| - k
  {
    if k == |b| then c == 0 && e == x
    else match b[k]
      case Exact(s) =>
        c < |s| && x < |t| && t[x] == s[c]
        && (if c + 1 == |s| then Reach(b, t, k + 1, 0, x + 1, e) else Reach(b, t, k, c + 1, x + 1, e))
      case One(atom) => c == 0 && Unit(atom, t, x) && Reach(b, t, k + 1, 0, x + 1, e)
      case Anchor(spot) => c == 0 && SpotHolds(spot, t, x) && Reach(b, t, k + 1, 0, x, e)
      case Rep(atom, q) =>
        && c <= (if q.Bounded() then q.Most() else q.Least())
        && ((CanLeave(q, c) && Reach(b, t, k + 1, 0, x, e))
            || (CanTake(q, c) && Unit(atom, t, x) && Reach(b, t, k, Taken(q, c), x + 1, e)))
  }

  lemma {:induction false} ReachForward(b: Branch, t: Text, k: nat, c: nat, x: nat, e: nat)
    requires k <= |b| && x <= |t| && Reach(b, t, k, c, x, e)
    ensures x <= e <= |t|
    decreases |t| - x, |b| - k
  {
    if k < |b| {
      match b[k]
      case Exact(s) =>
        if c + 1 == |s| { ReachForward(b, t, k + 1, 0, x + 1, e); } else { ReachForward(b, t, k, c + 1, x + 1, e); }
      case One(atom) => ReachForward(b, t, k + 1, 0, x + 1, e);
      case Anchor(spot) => ReachForward(b, t, k + 1, 0, x, e);
      case Rep(atom, q) =>
        if CanLeave(q, c) && Reach(b, t, k + 1, 0, x, e) { ReachForward(b, t, k + 1, 0, x, e); }
        else { ReachForward(b, t, k, Taken(q, c), x + 1, e); }
    }
  }

  // A repetition that may already be left can be continued with fewer repetitions done.
  lemma {:induction false} FewerDone(b: Branch, t: Text, k: nat, c: nat, c': nat, x: nat, e: nat)
    requires k < |b| && x <= |t| && b[k].Rep? && b[k].q.Least() <= c <= c'
    requires Reach(b, t, k, c', x, e)
    ensures Reach(b, t, k, c, x, e)
    decreases |t| - x
  {
    var q := b[k].q;
    if !(CanLeave(q, c') && Reach(b, t, k + 1, 0, x, e)) {
      FewerDone(b, t, k, Taken(q, c), Taken(q, c'), x + 1, e);
    }
  }

  ghost predicate Before(k: nat, c: nat, k': nat, c': nat) { k < k' || (k == k' && c <= c') }

  /** Run A stands at (i, ci), y and ends at f; run B stands further on in the branch, no further on
      in the text, and ends later, at e. Then A can end at e too. */
  lemma {:induction false} Exchange(b: Branch, t: Text, i: nat, ci: nat, y: nat, f: nat, j: nat, cj: nat, x: nat,
                                    e: nat)
    requires i <= |b| && j <= |b| && x <= y <= |t| && Before(i, ci, j, cj)
    requires Reach(b, t, i, ci, y, f) && Reach(b, t, j, cj, x, e) && f < e
    ensures Reach(b, t, i, ci, y, e)
    decreases |t| - x + (|t| - y), |b| - i + (|b| - j)
  {
    ReachForward(b, t, i, ci, y, f);
    if x < y {
      // B moves.
      match b[j]
      case Exact(s) =>
        if cj + 1 == |s| {
          Exchange(b, t, i, ci, y, f, j + 1, 0, x + 1, e);
        } else {
          Exchange(b, t, i, ci, y, f, j, cj + 1, x + 1, e);
        }
      case One(atom) => Exchange(b, t, i, ci, y, f, j + 1, 0, x + 1, e);
      case Anchor(spot) => Exchange(b, t, i, ci, y, f, j + 1, 0, x, e);
      case Rep(atom, q) =>
        if CanLeave(q, cj) && Reach(b, t, j + 1, 0, x, e) { Exchange(b, t, i, ci, y, f, j + 1, 0, x, e); }
        else { Exchange(b, t, i, ci, y, f, j, Taken(q, cj), x + 1, e); }
    } else if i < j || ci < cj {
      // A moves, but never past B.
      match b[i]
      case Exact(s) =>
        if ci + 1 == |s| {
          Exchange(b, t, i + 1, 0, y + 1, f, j, cj, x, e);
        } else {
          Exchange(b, t, i, ci + 1, y + 1, f, j, cj, x, e);
        }
      case One(atom) => Exchange(b, t, i + 1, 0, y + 1, f, j, cj, x, e);
      case Anchor(spot) => Exchange(b, t, i + 1, 0, y, f, j, cj, x, e);
      case Rep(atom, q) =>
        if CanLeave(q, ci) && Reach(b, t, i + 1, 0, y, f) {
          if i == j { FewerDone(b, t, i, ci, cj, x, e); } else { Exchange(b, t, i + 1, 0, y, f, j, cj, x, e); }
        } else {
          Exchange(b, t, i, Taken(q, ci), y + 1, f, j, cj, x, e);
        }
    }
  }

  // ---------- Reach is the language of the branch ----------

  lemma {:induction false} ReachExact(b: Branch, t: Text, k: nat, c: nat, x: nat, e: nat)
    requires k < |b| && x <= |t| && b[k].Exact? && c < |b[k].s|
    ensures Reach(b, t, k, c, x, e) <==>
            Occurs(b[k].s[c..], t, x) && Reach(b, t, k + 1, 0, x + |b[k].s| - c, e)
    decreases |b[k].s| - c
  {
    var s := b[k].s;
    if x < |t| && t[x] == s[c] {
      if c + 1 < |s| {
        ReachExact(b, t, k, c + 1, x + 1, e);
        if x + |s| - c <= |t| {
          assert t[x..x + |s| - c] == [t[x]] + t[x + 1..x + |s| - c];
          assert s[c..] == [s[c]] + s[c + 1..];
        }
      }
    } else if x + |s| - c <= |t| {
      assert t[x..x + |s| - c][0] == t[x] && s[c..][0] == s[c];
    }
  }

  // m bytes more complete the repetition.
  ghost predicate Completes(q: Quant, c: nat, m: int) {
    q.Least() <= c + m && (q.Bounded() ==> c + m <= q.Most())
  }

  ghost predicate Run(atom: Atom, t: Text, x: nat, m: nat) { forall k: nat | x <= k < m :: Unit(atom, t, k) }

  lemma {:induction false} ReachRepTo(b: Branch, t: Text, k: nat, c: nat, x: nat, e: nat) returns (m: nat)
    requires k < |b| && x <= |t| && b[k].Rep? && Reach(b, t, k, c, x, e)
    ensures x <= m <= |t| && Completes(b[k].q, c, m - x) && Run(b[k].atom, t, x, m) && Reach(b, t, k + 1, 0, m, e)
    decreases |t| - x
  {
    var q := b[k].q;
    if CanLeave(q, c) && Reach(b, t, k + 1, 0, x, e) {
      m := x;
    } else {
      m := ReachRepTo(b, t, k, Taken(q, c), x + 1, e);
    }
  }

  lemma {:induction false} ReachRepFrom(b: Branch, t: Text, k: nat, c: nat, x: nat, m: nat, e: nat)
    requires k < |b| && x <= m <= |t| && b[k].Rep? && c <= (if b[k].q.Bounded() then b[k].q.Most() else b[k].q.Least())
    requires Completes(b[k].q, c, m - x) && Run(b[k].atom, t, x, m) && Reach(b, t, k + 1, 0, m, e)
    ensures Reach(b, t, k, c, x, e)
    decreases m - x
  {
    if x < m {
      ReachRepFrom(b, t, k, Taken(b[k].q, c), x + 1, m, e);
    }
  }

  lemma {:induction false} ReachIsMatch(b: Branch, t: Text, k: nat, x: nat, e: nat)
    requires WfBranch(b) && k <= |b| && x <= |t|
    ensures Reach(b, t, k, 0, x, e) <==> BranchMatches(b[k..], t, x, e)
    decreases |b| - k
  {
    if k < |b| {
      var rest := b[k..];
      assert rest[0] == b[k] && rest[1..] == b[k + 1..];
      forall m: nat | m <= |t|
        ensures Reach(b, t, k + 1, 0, m, e) <==> BranchMatches(rest[1..], t, m, e)
      {
        ReachIsMatch(b, t, k + 1, m, e);
      }
      if Reach(b, t, k, 0, x, e) { ReachToMatch(b, t, k, x, e); }
      if BranchMatches(rest, t, x, e) {
        var m: nat :| m <= |t| && PieceMatches(rest[0], t, x, m) && BranchMatches(rest[1..], t, m, e);
        MatchToReach(b, t, k, x, m, e);
      }
    }
  }

  lemma MatchToReach(b: Branch, t: Text, k: nat, x: nat, m: nat, e: nat)
    requires WfBranch(b) && k < |b| && x <= |t| && m <= |t|
    requires PieceMatches(b[k], t, x, m) && Reach(b, t, k + 1, 0, m, e)
    ensures Reach(b, t, k, 0, x, e)
  {
    match b[k]
    case Exact(s) =>
      assert s[0..] == s;
      ReachExact(b, t, k, 0, x, e);
    case Rep(atom, q) => ReachRepFrom(b, t, k, 0, x, m, e);
    case _ =>
  }

  lemma ReachToMatch(b: Branch, t: Text, k: nat, x: nat, e: nat)
    requires WfBranch(b) && k < |b| && x <= |t| && Reach(b, t, k, 0, x, e)
    requires forall m: nat | m <= |t| :: Reach(b, t, k + 1, 0, m, e) ==> BranchMatches(b[k..][1..], t, m, e)
    ensures BranchMatches(b[k..], t, x, e)
  {
    var m: nat := x;
    match b[k] {
      case Exact(s) =>
        assert s[0..] == s;
        ReachExact(b, t, k, 0, x, e);
        m := x + |s|;
      case One(_) => m := x + 1;
      case Anchor(_) =>
      case Rep(atom, q) => m := ReachRepTo(b, t, k, 0, x, e);
    }
    assert PieceMatches(b[k..][0], t, x, m) && BranchMatches(b[k..][1..], t, m, e);
  }
}
