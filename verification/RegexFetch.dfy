/** What the bytes at a control point say, and which rewrites leave the code compiled. */
module RegexFetch {
  import opened Bytes
  import opened RegexCode
  import opened RegexTrace
  import opened RegexState
  import opened RegexStep

  // Where the counts of an interval are stored.
  function SuccCountAt(items: seq<Item>, i: nat): nat
    requires IsCounted(items, i)
  {
    Off(items, i) + AtomOff(items[i].piece.q) - 2
  }

  function JumpCountAt(items: seq<Item>, i: nat): nat
    requires IsCounted(items, i)
  {
    Off(items, i) + AtomOff(items[i].piece.q) + |AtomCode(items[i].piece.atom)| + 3
  }

  function Left(lo: nat, c: nat): nat { if c < lo then lo - c else 0 }

  // The counts kept in the code agree with the repetitions done, wherever they are still going to be read.
  ghost predicate Counters(items: seq<Item>, code: seq<byte>, i: nat, ph: Phase)
    requires PhaseOk(items, i, ph)
  {
    if i >= |items| || !IsCounted(items, i) then true
    else
      var (lo, hi) := (items[i].piece.q.lo, items[i].piece.q.hi);
      match ph
      case SecondSet => NumIs(code, JumpCountAt(items, i), hi - 1)
      case Succ(c) => CountsAre(items, code, i, Left(lo, c), hi - 1 - c)
      case NopA(c) => CountsAre(items, code, i, 0, hi - 1 - c)
      case NopB(c) => CountsAre(items, code, i, 0, hi - 1 - c)
      case BodyN(c) => CountsAre(items, code, i, Left(lo, c + 1), hi - 1 - c)
      case JumpN(c) => CountsAre(items, code, i, Left(lo, c), hi - c)
      case _ => true
  }

  ghost predicate CountsAre(items: seq<Item>, code: seq<byte>, i: nat, succ: int, jump: int)
    requires IsCounted(items, i)
  {
    NumIs(code, SuccCountAt(items, i), succ)
    && (items[i].piece.q.hi > 1 ==> NumIs(code, JumpCountAt(items, i), jump))
  }

  ghost predicate Ready(items: seq<Item>, code: seq<byte>) {
    Compiled(items, code) && Linked(items) && Grounded(items)
  }

  // ---------- Bytes ----------

  // The bytes of item i, found in the code.
  ghost predicate InCode(items: seq<Item>, code: seq<byte>, i: nat, s: seq<byte>) {
    i < |items| && |s| == ItemLen(items[i]) && Stands(s, code, Off(items, i)) && Reads(items, i, s)
  }

  lemma SlotBytes(items: seq<Item>, code: seq<byte>, i: nat) returns (s: seq<byte>)
    requires Compiled(items, code) && i < |items|
    ensures InCode(items, code, i, s) && s == Slot(items, i, code)
    ensures Off(items, i + 1) == Off(items, i) + |s|
    ensures if i + 1 < |items| then Off(items, i + 1) < |code| else Off(items, i + 1) == |code|
  {
    OffMonotone(items, i + 1, |items|);
    s := Slot(items, i, code);
  }

  // Everything dispatch on the opcode relies on.
  ghost predicate Kind(items: seq<Item>, i: nat, ph: Phase, op: byte)
    requires PhaseOk(items, i, ph) && i < |items|
  {
    if op == EXACTN then
      (ph.Start? && items[i].Term? && items[i].piece.Exact?) || (AtAtom(items, i, ph) && AtomOf(items, i, ph).Lit?)
    else if op == ANYCHAR then AtAtom(items, i, ph) && AtomOf(items, i, ph).Any?
    else if op == CHARSET || op == CHARSET_NOT then
      AtAtom(items, i, ph) && AtomOf(items, i, ph).Set? && (AtomOf(items, i, ph).neg <==> op == CHARSET_NOT)
    else if op == BEGLINE || op == ENDLINE || op == BEGBUF || op == ENDBUF then
      ph.Start? && items[i].Term? && items[i].piece.Anchor? && SpotCode(items[i].piece.spot) == op
    else if op == ON_FAILURE_JUMP then AtPush(items, i, ph) && !ph.Succ?
    else if op == DUMMY_FAILURE_JUMP then ph.Start? && IsLoop(items, i) && items[i].piece.q.Plus?
    else if op == MAYBE_POP_JUMP then ph.Back?
    else if op == POP_FAILURE_JUMP then ph.Back? && PopChosen(items, i)
    else if op == JUMP then (ph.Back? && !PopChosen(items, i)) || (ph.Start? && Skipped(items[i]))
    else if op == JUMP_PAST_ALT then ph.Start? && items[i].Past?
    else if op == SUCCEED_N then ph.Succ?
    else if op == JUMP_N then ph.JumpN?
    else if op == SET_NUMBER_AT then (ph.Start? || ph.SecondSet?) && AtCounter(items, i, ph)
    else op == NO_OP && (ph.NopA? || ph.NopB?)
  }

  lemma FirstByte(items: seq<Item>, code: seq<byte>, i: nat)
    requires Compiled(items, code) && i < |items|
    ensures Off(items, i) < |code| && code[Off(items, i)] == FirstOp(items[i])
  {
    hide Reads;
    var s := SlotBytes(items, code, i);
    FirstInSlot(items, i, s);
    assert code[Off(items, i) + 0] == s[0];
  }

  lemma FirstInSlot(items: seq<Item>, i: nat, s: seq<byte>)
    requires i < |items| && |s| == ItemLen(items[i]) && Reads(items, i, s)
    ensures s[0] == FirstOp(items[i])
  {
    hide Lo, Hi;
  }

  lemma AtomInSlot(items: seq<Item>, i: nat, ph: Phase, s: seq<byte>)
    requires AtAtom(items, i, ph) && |s| == ItemLen(items[i]) && Reads(items, i, s)
    ensures var (k, a) := (PhaseOff(items, i, ph), AtomCode(AtomOf(items, i, ph)));
            k + |a| <= |s| && s[k..k + |a|] == a
  {
    hide Lo, Hi;
    if ph.Start? { assert s[0..|s|] == s; }
  }

  lemma AtomBytes(items: seq<Item>, code: seq<byte>, i: nat, ph: Phase)
    requires Compiled(items, code) && AtAtom(items, i, ph)
    ensures var (p, a) := (Addr(items, i, ph), AtomCode(AtomOf(items, i, ph)));
            p + |a| <= |code| && code[p..p + |a|] == a
            && p + |a| == Addr(items, AfterAtom(items, i, ph).0, AfterAtom(items, i, ph).1)
  {
    hide AtomCode, Lo, Hi, Reads;
    var s := SlotBytes(items, code, i);
    AtomInSlot(items, i, ph, s);
    SliceStands(s, code, Off(items, i), PhaseOff(items, i, ph), |AtomCode(AtomOf(items, i, ph))|);
  }

  lemma SliceStands(s: seq<byte>, code: seq<byte>, at: nat, k: nat, n: nat)
    requires Stands(s, code, at) && k + n <= |s|
    ensures at + k + n <= |code| && code[at + k..at + k + n] == s[k..k + n]
  {
    var f, g := code[at + k..at + k + n], s[k..k + n];
    forall j: nat | j < n ensures f[j] == g[j] { assert code[at + (k + j)] == s[k + j]; }
  }

  lemma OpInSlot(items: seq<Item>, i: nat, ph: Phase, s: seq<byte>)
    requires PhaseOk(items, i, ph) && i < |items| && !AtAtom(items, i, ph) && !ph.NopA? && !ph.NopB?
    requires |s| == ItemLen(items[i]) && Reads(items, i, s)
    ensures PhaseOff(items, i, ph) < |s| && Kind(items, i, ph, s[PhaseOff(items, i, ph)])
  {
    hide AtomCode, Lo, Hi;
  }

  lemma AtomKind(items: seq<Item>, i: nat, ph: Phase)
    requires AtAtom(items, i, ph)
    ensures Kind(items, i, ph, AtomCode(AtomOf(items, i, ph))[0])
  {
  }

  lemma Dispatch(items: seq<Item>, code: seq<byte>, i: nat, ph: Phase)
    requires Compiled(items, code) && PhaseOk(items, i, ph) && i < |items|
    requires ph.NopA? || ph.NopB? ==> Counters(items, code, i, ph)
    ensures Addr(items, i, ph) < |code| && Kind(items, i, ph, code[Addr(items, i, ph)])
  {
    hide Reads, AtomCode, Kind;
    if AtAtom(items, i, ph) {
      AtomBytes(items, code, i, ph);
      AtomKind(items, i, ph);
      var p, a := Addr(items, i, ph), AtomCode(AtomOf(items, i, ph));
      assert code[p] == code[p..p + |a|][0] == a[0];
    } else if ph.NopA? || ph.NopB? {
      assert Num(0) == [0, 0];
      NopKind(items, i, ph);
    } else {
      var s := SlotBytes(items, code, i);
      OpInSlot(items, i, ph, s);
      assert code[Off(items, i) + PhaseOff(items, i, ph)] == s[PhaseOff(items, i, ph)];
    }
  }

  lemma NopKind(items: seq<Item>, i: nat, ph: Phase)
    requires PhaseOk(items, i, ph) && i < |items| && (ph.NopA? || ph.NopB?)
    ensures Kind(items, i, ph, NO_OP)
  {
  }

  // Instructions with a relative address as first argument, and the address it denotes.
  predicate AtJump(items: seq<Item>, i: nat, ph: Phase) {
    PhaseOk(items, i, ph) && i < |items|
    && (ph.LoopTop? || ph.Back? || ph.Succ? || ph.JumpN?
        || (ph.Start?
            && (!items[i].Term? || (IsRep(items, i) && (!items[i].piece.q.Interval? || items[i].piece.q.hi == 0)))))
  }

  function JumpTarget(items: seq<Item>, i: nat, ph: Phase): nat
    requires AtJump(items, i, ph) && LinkAt(items, i)
  {
    if items[i].Fork? then Off(items, i + items[i].span)
    else if items[i].Past? then Off(items, i + items[i].hop)
    else if ph.Back? then Addr(items, i, TopOfLoop(items, i))
    else if ph.JumpN? then Off(items, i) + AtomOff(items[i].piece.q) - 5
    else if ph.Start? && items[i].piece.q.Plus? then Addr(items, i, Body)
    else Off(items, i + 1)
  }

  function Rel(items: seq<Item>, i: nat, ph: Phase): int
    requires AtJump(items, i, ph)
  {
    if !items[i].Term? then items[i].rel
    else
      var (n, q) := (|AtomCode(items[i].piece.atom)|, items[i].piece.q);
      match ph
      case Back => -(n + 6)
      case JumpN(_) => -(n + 8)
      case Succ(_) => if q.hi == 1 then n + 2 else n + 7
      case LoopTop => n + 3
      case _ => if q.Star? then n + 3 else if q.Plus? then 3 else n
  }

  lemma RelLeads(items: seq<Item>, i: nat, ph: Phase)
    requires AtJump(items, i, ph) && LinkAt(items, i) && WfItem(items[i])
    ensures InNumberRange(Rel(items, i, ph))
    ensures Addr(items, i, ph) + 3 + Rel(items, i, ph) == JumpTarget(items, i, ph)
  {
    hide Lo, Hi;
  }

  lemma RelInSlot(items: seq<Item>, i: nat, ph: Phase, s: seq<byte>)
    requires AtJump(items, i, ph) && |s| == ItemLen(items[i]) && Reads(items, i, s)
    ensures NumIs(s, PhaseOff(items, i, ph) + 1, Rel(items, i, ph))
  {
    hide AtomCode, Lo, Hi;
  }

  lemma JumpReads(items: seq<Item>, code: seq<byte>, i: nat, ph: Phase)
    requires Ready(items, code) && AtJump(items, i, ph)
    ensures LinkAt(items, i)
    ensures var p := Addr(items, i, ph); p + 2 < |code| && p + 3 + NumAt(code, p + 1) == JumpTarget(items, i, ph)
  {
    hide AtomCode, Lo, Hi, Reads;
    var s := SlotBytes(items, code, i);
    assert LinkAt(items, i) && WfItem(items[i]);
    RelInSlot(items, i, ph, s);
    RelLeads(items, i, ph);
    NumStands(s, code, Off(items, i), PhaseOff(items, i, ph) + 1, Rel(items, i, ph));
    NumReads(code, Addr(items, i, ph) + 1, Rel(items, i, ph));
  }

  // What a set_number_at sets: the count of the jump_n or that of the succeed_n.
  predicate SetsJump(items: seq<Item>, i: nat, ph: Phase)
    requires AtCounter(items, i, ph)
  {
    ph.Start? && items[i].piece.q.hi > 1
  }

  lemma SetInSlot(items: seq<Item>, i: nat, ph: Phase, s: seq<byte>)
    requires AtCounter(items, i, ph) && (ph.Start? || ph.SecondSet?) && |s| == ItemLen(items[i]) && Reads(items, i, s)
    ensures var (k, q) := (PhaseOff(items, i, ph), items[i].piece.q);
            && NumIs(s, k + 1, if SetsJump(items, i, ph) then |AtomCode(items[i].piece.atom)| + 15 else 5)
            && NumIs(s, k + 3, if SetsJump(items, i, ph) then q.hi - 1 else q.lo)
  {
    hide AtomCode, Lo, Hi;
  }

  // The two arguments of set_number_at: which count it sets, and to what.
  lemma SetReads(items: seq<Item>, code: seq<byte>, i: nat, ph: Phase)
    requires Compiled(items, code) && AtCounter(items, i, ph) && (ph.Start? || ph.SecondSet?)
    ensures var (p, q, jump) := (Addr(items, i, ph), items[i].piece.q, SetsJump(items, i, ph));
            && p + 4 < |code|
            && p + 3 + NumAt(code, p + 1) == (if jump then JumpCountAt(items, i) else SuccCountAt(items, i))
            && NumAt(code, p + 3) == (if jump then q.hi - 1 else q.lo)
            && p + 5 == Addr(items, AfterCounter(items, i, ph).0, AfterCounter(items, i, ph).1)
  {
    hide AtomCode, Lo, Hi, Reads;
    var s := SlotBytes(items, code, i);
    var (p, q, k, jump) := (Addr(items, i, ph), items[i].piece.q, PhaseOff(items, i, ph), SetsJump(items, i, ph));
    var rel := if jump then |AtomCode(items[i].piece.atom)| + 15 else 5;
    var v := if jump then q.hi - 1 else q.lo;
    assert WfItem(items[i]);
    SetInSlot(items, i, ph, s);
    NumStands(s, code, Off(items, i), k + 1, rel);
    NumStands(s, code, Off(items, i), k + 3, v);
    NumReads(code, p + 1, rel);
    NumReads(code, p + 3, v);
  }

  // ---------- Rewrites ----------

  function Put(code: seq<byte>, k: nat, v: int): seq<byte>
    requires k + 1 < |code|
  {
    code[k := Lo(v)][k + 1 := Hi(v)]
  }

  // The two codes differ at most between lo and hi.
  ghost predicate SameOutside(code: seq<byte>, code': seq<byte>, lo: nat, hi: nat) {
    |code'| == |code| && forall k: nat | k < |code| && (k < lo || k >= hi) :: code'[k] == code[k]
  }

  lemma OtherSlot(items: seq<Item>, i: nat, j: nat, code: seq<byte>, code': seq<byte>)
    requires i < |items| && j < |items| && i != j && |code| == Off(items, |items|)
    requires SameOutside(code, code', Off(items, i), Off(items, i + 1))
    ensures Slot(items, j, code') == Slot(items, j, code)
  {
    OffMonotone(items, j, j + 1);
    OffMonotone(items, j + 1, |items|);
    if j < i { OffMonotone(items, j + 1, i); } else { OffMonotone(items, i + 1, j); }
  }

  lemma PatchKeeps(items: seq<Item>, i: nat, code: seq<byte>, code': seq<byte>)
    requires Compiled(items, code) && i < |items|
    requires SameOutside(code, code', Off(items, i), Off(items, i + 1))
    requires Reads(items, i, Slot(items, i, code'))
    ensures Compiled(items, code')
  {
    hide AtomCode, Lo, Hi, RepReads;
    forall j: nat | j < |items|
      ensures Reads(items, j, Slot(items, j, code'))
    {
      if j != i {
        OtherSlot(items, i, j, code, code');
        assert Reads(items, j, Slot(items, j, code));
      }
    }
  }

  lemma BackInSlot(items: seq<Item>, i: nat, s: seq<byte>, s': seq<byte>)
    requires PhaseOk(items, i, Back) && i < |items| && |s| == ItemLen(items[i]) && Reads(items, i, s)
    requires s' == s[PhaseOff(items, i, Back) := if PopChosen(items, i) then POP_FAILURE_JUMP else JUMP]
    ensures Reads(items, i, s')
  {
    hide AtomCode, Lo, Hi;
    var (k, n) := (PhaseOff(items, i, Back), |AtomCode(items[i].piece.atom)|);
    assert s'[k - n..k] == s[k - n..k];
  }

  // maybe_pop_jump is replaced by what was decided.
  lemma PatchBack(items: seq<Item>, code: seq<byte>, i: nat)
    requires Compiled(items, code) && PhaseOk(items, i, Back) && i < |items|
    ensures var p := Addr(items, i, Back);
            p < |code| && Compiled(items, code[p := if PopChosen(items, i) then POP_FAILURE_JUMP else JUMP])
  {
    hide AtomCode, Lo, Hi, Reads;
    var s := SlotBytes(items, code, i);
    var (p, k) := (Addr(items, i, Back), PhaseOff(items, i, Back));
    var op := if PopChosen(items, i) then POP_FAILURE_JUMP else JUMP;
    var code' := code[p := op];
    assert Slot(items, i, code') == s[k := op];
    BackInSlot(items, i, s, s[k := op]);
    PatchKeeps(items, i, code, code');
  }

  lemma CountInSlot(items: seq<Item>, i: nat, jump: bool, s: seq<byte>, s': seq<byte>)
    requires IsCounted(items, i) && (jump ==> items[i].piece.q.hi > 1) && |s| == |s'| == ItemLen(items[i])
    requires Reads(items, i, s)
    requires var o := (if jump then JumpCountAt(items, i) else SuccCountAt(items, i)) - Off(items, i);
             SameOutside(s, s', o, o + 2)
    ensures Reads(items, i, s')
  {
    hide AtomCode, Lo, Hi;
    var (n, m) := (|AtomCode(items[i].piece.atom)|, AtomOff(items[i].piece.q));
    assert s'[m..m + n] == s[m..m + n];
  }

  // A count of an interval is overwritten; the other one stays.
  lemma PatchCount(items: seq<Item>, code: seq<byte>, i: nat, jump: bool, v: int)
    requires Compiled(items, code) && IsCounted(items, i) && (jump ==> items[i].piece.q.hi > 1)
    ensures var k := if jump then JumpCountAt(items, i) else SuccCountAt(items, i);
            && k + 1 < |code| && Compiled(items, Put(code, k, v)) && NumIs(Put(code, k, v), k, v)
            && SameOutside(code, Put(code, k, v), k, k + 2)
  {
    hide AtomCode, Lo, Hi, Reads;
    var s := SlotBytes(items, code, i);
    var k := if jump then JumpCountAt(items, i) else SuccCountAt(items, i);
    var code' := Put(code, k, v);
    CountInSlot(items, i, jump, s, Slot(items, i, code'));
    PatchKeeps(items, i, code, code');
  }

  lemma OtherCount(code: seq<byte>, code': seq<byte>, lo: nat, hi: nat, k: nat, v: int)
    requires SameOutside(code, code', lo, hi) && NumIs(code, k, v) && (k + 1 < lo || k >= hi)
    ensures NumIs(code', k, v)
  {
  }
}
