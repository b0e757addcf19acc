/**
 re_match_2 as it runs: a program counter into the byte buffer, a text position, an explicit
 failure stack that grows by doubling, and a buffer that is rewritten while it is executed.
 */
module RegexVm {
  import opened Bytes
  import opened RegexAst
  import opened RegexCode
  import opened RegexTrace
  import opened RegexState
  import opened RegexStep
  import opened RegexFetch

  // A failure point: where to go on in the pattern and in the text. Null is the dummy.
  datatype Failure = Null | Retry(pat: nat, str: nat)

  datatype Status = Ran | Failed | NoRoom

  const INIT_FAILURE_ALLOC: nat := 5
  const RE_MAX_FAILURES: nat := 2000
  const NUM_FAILURE_ITEMS: nat := 4   // no registers are active

  // The sizes the failure stack can have.
  ghost predicate StackSize(size: nat) {
    size in {5, 10, 20, 40, 80, 160, 320, 640, 1280, 2560, 5120, 10240}
  }

  ghost predicate Holds(items: seq<Item>, text: Text, stack: seq<Failure>, marks: seq<Mark>) {
    && MarksOk(items, text, marks) && |stack| == |marks|
    && forall k: nat | k < |marks| ::
         stack[k] == if marks[k].Dummy? then Null else Retry(Off(items, marks[k].i), marks[k].d)
  }

  // PUSH_FAILURE_POINT: doubles the stack until four more items fit, or gives up.
  method PushFailurePoint(stack: seq<Failure>, size: nat, pt: Failure)
    returns (ok: bool, stack': seq<Failure>, size': nat)
    requires StackSize(size) && NUM_FAILURE_ITEMS * |stack| <= size
    ensures ok <==> |stack| < MAX_POINTS
    ensures StackSize(size') && NUM_FAILURE_ITEMS * |stack'| <= size'
    ensures stack' == if ok then stack + [pt] else stack
  {
    ok, stack', size' := true, stack, size;
    while size' - NUM_FAILURE_ITEMS * |stack| < NUM_FAILURE_ITEMS
      invariant StackSize(size') && NUM_FAILURE_ITEMS * |stack| <= size'
      decreases 20480 - size'
    {
      if size' > RE_MAX_FAILURES * NUM_FAILURE_ITEMS {
        ok := false;
        return;
      }
      size' := size' * 2;
    }
    stack' := stack + [pt];
  }

  method StoreNumber(buf: array<byte>, used: nat, k: nat, number: int)
    requires k + 1 < used <= buf.Length
    modifies buf
    ensures buf[..used] == Put(old(buf[..used]), k, number)
  {
    buf[k] := Lo(number);
    buf[k + 1] := Hi(number);
  }

  method StoreNoOps(buf: array<byte>, used: nat, k: nat)
    requires k + 1 < used <= buf.Length
    modifies buf
    ensures buf[..used] == Put(old(buf[..used]), k, 0)
  {
    buf[k] := NO_OP;
    buf[k + 1] := NO_OP;
  }

  // The comparison loop of exactn.
  method CompareLiteral(buf: array<byte>, at: nat, n: nat, text: Text, d: nat) returns (same: bool)
    requires at + n <= buf.Length && d <= |text|
    ensures same <==> Occurs(buf[at..at + n], text, d)
  {
    var mcnt, q, e := n, at, d;
    while mcnt > 0
      invariant 0 <= mcnt <= n && q == at + (n - mcnt) && e == d + (n - mcnt) <= |text|
      invariant text[d..e] == buf[at..q]
    {
      if e == |text| || text[e] != buf[q] {
        assert buf[at..at + n][e - d] == buf[q];
        if d + n <= |text| { assert text[d..d + n][e - d] == text[e]; }
        return false;
      }
      assert text[d..e + 1] == text[d..e] + [text[e]] && buf[at..q + 1] == buf[at..q] + [buf[q]];
      e, q, mcnt := e + 1, q + 1, mcnt - 1;
    }
    return true;
  }

  // charset and charset_not.
  method InBitMap(buf: array<byte>, at: nat, c: byte) returns (r: bool)
    requires at < buf.Length && at + 1 + buf[at] <= buf.Length
    ensures r == InMap(buf[at..at + 1 + buf[at]], c)
  {
    var i: int, n: int := c, buf[at];
    r := i < n * 8 && Bit(buf[at + 1 + i / 8], i % 8);
  }

  // The bytes an exactn compares.
  function Literal(items: seq<Item>, i: nat, ph: Phase): seq<byte>
    requires PhaseOk(items, i, ph) && i < |items| && Kind(items, i, ph, EXACTN)
  {
    if AtAtom(items, i, ph) then [AtomOf(items, i, ph).c] else items[i].piece.s
  }

  function AfterLiteral(items: seq<Item>, i: nat, ph: Phase): (r: (nat, Phase))
    requires PhaseOk(items, i, ph) && i < |items| && Kind(items, i, ph, EXACTN)
    ensures PhaseOk(items, r.0, r.1)
  {
    if AtAtom(items, i, ph) then AfterAtom(items, i, ph) else (i + 1, Start)
  }

  lemma LitBytes(items: seq<Item>, code: seq<byte>, i: nat, ph: Phase)
    requires Compiled(items, code) && AtAtom(items, i, ph) && AtomOf(items, i, ph).Lit?
    ensures var p := Addr(items, i, ph);
            && p + 3 <= |code| && code[p + 1] == 1 && code[p + 2..p + 3] == [AtomOf(items, i, ph).c]
            && p + 3 == Addr(items, AfterAtom(items, i, ph).0, AfterAtom(items, i, ph).1)
  {
    hide Compiled;
    AtomBytes(items, code, i, ph);
    var p, a := Addr(items, i, ph), AtomCode(AtomOf(items, i, ph));
    assert code[p + 1] == code[p..p + 3][1] == a[1] && code[p + 2] == code[p..p + 3][2] == a[2];
    assert code[p + 2..p + 3] == [code[p + 2]];
  }

  lemma RunBytes(items: seq<Item>, code: seq<byte>, i: nat)
    requires Compiled(items, code) && i < |items| && items[i].Term? && items[i].piece.Exact?
    ensures var (p, str) := (Off(items, i), items[i].piece.s);
            && 1 <= |str| && p + 2 + |str| <= |code| && code[p + 1] == |str| && code[p + 2..p + 2 + |str|] == str
            && p + 2 + |str| == Off(items, i + 1)
  {
    hide RepReads, AtomCode;
    var s := SlotBytes(items, code, i);
    var (p, str) := (Off(items, i), items[i].piece.s);
    assert WfItem(items[i]);
    assert code[p + 1] == s[1];
    assert s[2..2 + |str|] == str;
    SliceStands(s, code, p, 2, |str|);
  }

  lemma LiteralBytes(items: seq<Item>, code: seq<byte>, i: nat, ph: Phase)
    requires Compiled(items, code) && PhaseOk(items, i, ph) && i < |items| && Kind(items, i, ph, EXACTN)
    ensures var (p, s) := (Addr(items, i, ph), Literal(items, i, ph));
            && 1 <= |s| && p + 2 + |s| <= |code| && code[p + 1] == |s| && code[p + 2..p + 2 + |s|] == s
            && p + 2 + |s| == Addr(items, AfterLiteral(items, i, ph).0, AfterLiteral(items, i, ph).1)
  {
    hide Compiled, AtomCode;
    if AtAtom(items, i, ph) { LitBytes(items, code, i, ph); } else { RunBytes(items, code, i); }
  }

  lemma BitMapBytes(items: seq<Item>, code: seq<byte>, i: nat, ph: Phase)
    requires Compiled(items, code) && AtAtom(items, i, ph) && AtomOf(items, i, ph).Set?
    ensures var (p, members) := (Addr(items, i, ph), AtomOf(items, i, ph).members);
            && p + 2 + MapLen(members) <= |code| && code[p + 1] == MapLen(members)
            && p + 2 + MapLen(members) == Addr(items, AfterAtom(items, i, ph).0, AfterAtom(items, i, ph).1)
            && forall c: byte :: InMap(code[p + 1..p + 2 + MapLen(members)], c) <==> c in members
  {
    hide MapBytes, MapLen, InMap;
    AtomBytes(items, code, i, ph);
    var (p, members, a) := (Addr(items, i, ph), AtomOf(items, i, ph).members, AtomCode(AtomOf(items, i, ph)));
    var bits := [MapLen(members)] + MapBytes(members, MapLen(members));
    assert a[1..] == bits;
    assert code[p + 1..p + 1 + |bits|] == code[p..p + |a|][1..] == bits;
    assert code[p + 1] == bits[0];
    forall c: byte ensures InMap(bits, c) <==> c in members { InMapIsMember(members, c); }
  }

  lemma StepLiteral(items: seq<Item>, t: Text, i: nat, ph: Phase, d: nat, marks: seq<Mark>)
    requires Sane(items, t, i, ph, d, marks) && i < |items| && Kind(items, i, ph, EXACTN)
    ensures var (s, r) := (Literal(items, i, ph), AfterLiteral(items, i, ph));
            if Occurs(s, t, d) then Moves(items, t, i, ph, d, marks, r.0, r.1, d + |s|, marks)
            else Rem(items, t, i, ph, d, marks) == FromStack(items, t, marks)
  {
    hide Rem, Weight, AtomCode;
    if AtAtom(items, i, ph) {
      var c := AtomOf(items, i, ph).c;
      assert Unit(AtomOf(items, i, ph), t, d) <==> Occurs([c], t, d) by {
        if d < |t| { assert t[d..d + 1] == [t[d]]; }
      }
      StepAtom(items, t, i, ph, d, marks);
    } else {
      StepExact(items, t, i, d, marks);
    }
  }

  // The program counter is where the control point says, in code that is compiled from the items.
  ghost predicate Control(items: seq<Item>, text: Text, code: seq<byte>, i: nat, ph: Phase, p: nat, d: nat,
                          marks: seq<Mark>) {
    && Ready(items, code) && Sane(items, text, i, ph, d, marks)
    && p == Addr(items, i, ph) && Counters(items, code, i, ph)
  }

  // One instruction that neither pushes nor pops.
  ghost predicate Goes(items: seq<Item>, text: Text, code: seq<byte>, i: nat, ph: Phase, d: nat, marks: seq<Mark>,
                       i': nat, ph': Phase, p': nat, d': nat)
    requires Sane(items, text, i, ph, d, marks)
  {
    Control(items, text, code, i', ph', p', d', marks) && Moves(items, text, i, ph, d, marks, i', ph', d', marks)
  }

  ghost predicate Fails(items: seq<Item>, text: Text, i: nat, ph: Phase, d: nat, marks: seq<Mark>)
    requires Sane(items, text, i, ph, d, marks)
  {
    Rem(items, text, i, ph, d, marks) == FromStack(items, text, marks)
  }

  lemma Decode(items: seq<Item>, text: Text, code: seq<byte>, i: nat, ph: Phase, p: nat, d: nat, marks: seq<Mark>)
    requires Control(items, text, code, i, ph, p, d, marks) && i < |items|
    ensures PhaseOk(items, i, ph) && p < |code| && Kind(items, i, ph, code[p])
  {
    Dispatch(items, code, i, ph);
  }

  lemma AtomGoes(items: seq<Item>, text: Text, code: seq<byte>, i: nat, ph: Phase, p: nat, d: nat, marks: seq<Mark>)
    requires Control(items, text, code, i, ph, p, d, marks) && AtAtom(items, i, ph)
    ensures var r := AfterAtom(items, i, ph);
            if Unit(AtomOf(items, i, ph), text, d)
            then Goes(items, text, code, i, ph, d, marks, r.0, r.1, p + |AtomCode(AtomOf(items, i, ph))|, d + 1)
            else Fails(items, text, i, ph, d, marks)
  {
    hide Reads, Rem, Weight, Compiled, AtomCode, Lo, Hi;
    AtomBytes(items, code, i, ph);
    StepAtom(items, text, i, ph, d, marks);
  }

  lemma LiteralGoes(items: seq<Item>, text: Text, code: seq<byte>, i: nat, ph: Phase, p: nat, d: nat, marks: seq<Mark>)
    requires Control(items, text, code, i, ph, p, d, marks) && i < |items| && Kind(items, i, ph, EXACTN)
    ensures var (r, s) := (AfterLiteral(items, i, ph), Literal(items, i, ph));
            && p + 2 + |s| <= |code| && code[p + 1] == |s| && code[p + 2..p + 2 + |s|] == s
            && if Occurs(s, text, d) then Goes(items, text, code, i, ph, d, marks, r.0, r.1, p + 2 + |s|, d + |s|)
               else Fails(items, text, i, ph, d, marks)
  {
    hide Reads, Rem, Weight, Compiled, AtomCode, Lo, Hi;
    LiteralBytes(items, code, i, ph);
    StepLiteral(items, text, i, ph, d, marks);
  }

  lemma CharsetGoes(items: seq<Item>, text: Text, code: seq<byte>, i: nat, ph: Phase, p: nat, d: nat, marks: seq<Mark>)
    requires Control(items, text, code, i, ph, p, d, marks) && i < |items| && p < |code|
    requires (code[p] == CHARSET || code[p] == CHARSET_NOT) && d <= |text|
    ensures AtAtom(items, i, ph) && p + 1 < |code| && p + 2 + code[p + 1] <= |code|
    ensures var (r, q) := (AfterAtom(items, i, ph), p + 2 + code[p + 1]);
            if d < |text| && InMap(code[p + 1..q], text[d]) != (code[p] == CHARSET_NOT)
            then Goes(items, text, code, i, ph, d, marks, r.0, r.1, q, d + 1)
            else Fails(items, text, i, ph, d, marks)
  {
    hide InMap, MapLen, MapBytes, Goes, Fails, Sane, Counters, Linked, Grounded, Compiled;
    Decode(items, text, code, i, ph, p, d, marks);
    BitMapBytes(items, code, i, ph);
    AtomGoes(items, text, code, i, ph, p, d, marks);
  }

  lemma SliceOfCode(buf: array<byte>, used: nat, lo: nat, hi: nat)
    requires lo <= hi <= used <= buf.Length
    ensures buf[lo..hi] == buf[..used][lo..hi]
  {
  }

  // ---------- Instructions that examine the text ----------

  method Exactn(buf: array<byte>, used: nat, text: Text, p: nat, d: nat,
                ghost items: seq<Item>, ghost i: nat, ghost ph: Phase, ghost marks: seq<Mark>)
    returns (ok: bool, p': nat, d': nat, ghost i': nat, ghost ph': Phase)
    requires used <= buf.Length && d <= |text| && Control(items, text, buf[..used], i, ph, p, d, marks)
    requires i < |items| && p < used && buf[p] == EXACTN
    ensures if ok
            then Goes(items, text, buf[..used], i, ph, d, marks, i', ph', p', d')
            else Fails(items, text, i, ph, d, marks)
  {
    hide Control, Goes, Fails, Kind, Literal;
    ghost var code := buf[..used];
    Decode(items, text, code, i, ph, p, d, marks);
    LiteralGoes(items, text, code, i, ph, p, d, marks);
    ghost var r := AfterLiteral(items, i, ph);
    i', ph' := r.0, r.1;
    var n: nat := buf[p + 1];
    assert n == code[p + 1] == |Literal(items, i, ph)|;
    SliceOfCode(buf, used, p + 2, p + 2 + n);
    ok := CompareLiteral(buf, p + 2, n, text, d);
    p', d' := p + 2 + n, d + n;
  }

  method Anychar(buf: array<byte>, used: nat, text: Text, p: nat, d: nat,
                 ghost items: seq<Item>, ghost i: nat, ghost ph: Phase, ghost marks: seq<Mark>)
    returns (ok: bool, p': nat, d': nat, ghost i': nat, ghost ph': Phase)
    requires used <= buf.Length && d <= |text| && Control(items, text, buf[..used], i, ph, p, d, marks)
    requires i < |items| && p < used && buf[p] == ANYCHAR
    ensures if ok
            then Goes(items, text, buf[..used], i, ph, d, marks, i', ph', p', d')
            else Fails(items, text, i, ph, d, marks)
  {
    hide Control, Goes, Fails;
    Decode(items, text, buf[..used], i, ph, p, d, marks);
    AtomGoes(items, text, buf[..used], i, ph, p, d, marks);
    ghost var r := AfterAtom(items, i, ph);
    i', ph' := r.0, r.1;
    ok := d != |text| && text[d] != 0;
    p', d' := p + 1, d + 1;
  }

  method Charset(buf: array<byte>, used: nat, text: Text, p: nat, d: nat,
                 ghost items: seq<Item>, ghost i: nat, ghost ph: Phase, ghost marks: seq<Mark>)
    returns (ok: bool, p': nat, d': nat, ghost i': nat, ghost ph': Phase)
    requires used <= buf.Length && d <= |text| && Control(items, text, buf[..used], i, ph, p, d, marks)
    requires i < |items| && p < used && (buf[p] == CHARSET || buf[p] == CHARSET_NOT)
    ensures if ok
            then Goes(items, text, buf[..used], i, ph, d, marks, i', ph', p', d')
            else Fails(items, text, i, ph, d, marks)
  {
    hide Control, Goes, Fails, InMap;
    CharsetGoes(items, text, buf[..used], i, ph, p, d, marks);
    ghost var r := AfterAtom(items, i, ph);
    i', ph' := r.0, r.1;
    ok := false;
    p', d' := p + 2 + buf[p + 1], d + 1;
    SliceOfCode(buf, used, p + 1, p');
    if d != |text| {
      var not := buf[p] == CHARSET_NOT;
      var inMap := InBitMap(buf, p + 1, text[d]);
      if inMap { not := !not; }
      ok := not;
    }
  }

  method Anchors(buf: array<byte>, used: nat, text: Text, p: nat, d: nat,
                 ghost items: seq<Item>, ghost i: nat, ghost ph: Phase, ghost marks: seq<Mark>)
    returns (ok: bool, p': nat, ghost i': nat, ghost ph': Phase)
    requires used <= buf.Length && Control(items, text, buf[..used], i, ph, p, d, marks)
    requires i < |items| && p < used && buf[p] in {BEGLINE, ENDLINE, BEGBUF, ENDBUF}
    ensures if ok
            then Goes(items, text, buf[..used], i, ph, d, marks, i', ph', p', d)
            else Fails(items, text, i, ph, d, marks)
  {
    hide Reads, Rem, Weight, Compiled;
    Dispatch(items, buf[..used], i, ph);
    StepAnchor(items, text, i, d, marks);
    i', ph' := i + 1, Start;
    p' := p + 1;
    if buf[p] == BEGLINE {
      ok := d == 0 || text[d - 1] == NEWLINE;
    } else if buf[p] == ENDLINE {
      ok := d == |text| || text[d] == NEWLINE;
    } else if buf[p] == BEGBUF {
      ok := d == 0;
    } else {
      ok := d == |text|;
    }
  }

  // ---------- Instructions that push ----------

  ghost predicate Refused(items: seq<Item>, text: Text, i: nat, ph: Phase, d: nat, marks: seq<Mark>)
    requires Sane(items, text, i, ph, d, marks)
  {
    Rem(items, text, i, ph, d, marks) != [] && Rem(items, text, i, ph, d, marks)[0] == Overflow
  }

  // One instruction that leaves the stack as marks'.
  ghost predicate Restacks(items: seq<Item>, text: Text, code: seq<byte>, i: nat, ph: Phase, d: nat, marks: seq<Mark>,
                           i': nat, ph': Phase, p': nat, marks': seq<Mark>)
    requires Sane(items, text, i, ph, d, marks)
  {
    Control(items, text, code, i', ph', p', d, marks') && Moves(items, text, i, ph, d, marks, i', ph', d, marks')
  }

  ghost predicate Room(stack: seq<Failure>, size: nat) { StackSize(size) && NUM_FAILURE_ITEMS * |stack| <= size }

  lemma HoldsPush(items: seq<Item>, text: Text, stack: seq<Failure>, marks: seq<Mark>, m: Mark)
    requires Holds(items, text, stack, marks) && (m.Point? ==> Landing(items, m.i) && m.d <= |text|)
    ensures Holds(items, text, stack + [if m.Dummy? then Null else Retry(Off(items, m.i), m.d)], marks + [m])
    ensures |stack| == |marks|
  {
  }

  lemma HoldsPop(items: seq<Item>, text: Text, stack: seq<Failure>, marks: seq<Mark>)
    requires Holds(items, text, stack, marks) && marks != []
    ensures Holds(items, text, stack[..|stack| - 1], marks[..|marks| - 1])
  {
  }

  lemma PushGoes(items: seq<Item>, text: Text, code: seq<byte>, i: nat, ph: Phase, p: nat, d: nat, marks: seq<Mark>)
    requires Control(items, text, code, i, ph, p, d, marks) && AtPush(items, i, ph) && !ph.Succ?
    ensures Landing(items, PushTarget(items, i))
    ensures p + 2 < |code| && p + 3 + NumAt(code, p + 1) == Off(items, PushTarget(items, i))
    ensures var (r, m) := (AfterPush(items, i, ph), Point(PushTarget(items, i), d));
            if |marks| >= MAX_POINTS then Refused(items, text, i, ph, d, marks)
            else Restacks(items, text, code, i, ph, d, marks, r.0, r.1, p + 3, marks + [m])
  {
    hide Reads, Rem, Weight, Compiled, AtomCode, Lo, Hi;
    JumpReads(items, code, i, ph);
    StepPush(items, text, i, ph, d, marks);
  }

  method OnFailureJump(buf: array<byte>, used: nat, text: Text, p: nat, d: nat, stack: seq<Failure>, size: nat,
                       ghost items: seq<Item>, ghost i: nat, ghost ph: Phase, ghost marks: seq<Mark>)
    returns (ok: bool, p': nat, stack': seq<Failure>, size': nat, ghost i': nat, ghost ph': Phase,
             ghost marks': seq<Mark>)
    requires used <= buf.Length && Control(items, text, buf[..used], i, ph, p, d, marks)
    requires Holds(items, text, stack, marks) && Room(stack, size)
    requires i < |items| && p < used && buf[p] == ON_FAILURE_JUMP
    ensures if ok then Restacks(items, text, buf[..used], i, ph, d, marks, i', ph', p', marks')
                       && Holds(items, text, stack', marks') && Room(stack', size')
            else Refused(items, text, i, ph, d, marks)
  {
    hide Restacks, Refused, Counters, Compiled, Linked, Grounded, AtomCode;
    ghost var code := buf[..used];
    Decode(items, text, code, i, ph, p, d, marks);
    PushGoes(items, text, code, i, ph, p, d, marks);
    ghost var r := AfterPush(items, i, ph);
    ghost var m := Point(PushTarget(items, i), d);
    i', ph', marks' := r.0, r.1, marks + [m];
    assert NumAt(code, p + 1) == Extract(buf[p + 1], buf[p + 2]);
    var mcnt := Extract(buf[p + 1], buf[p + 2]);
    p' := p + 3;
    HoldsPush(items, text, stack, marks, m);
    ok, stack', size' := PushFailurePoint(stack, size, Retry(p' + mcnt, d));
  }

  lemma DummyGoes(items: seq<Item>, text: Text, code: seq<byte>, i: nat, ph: Phase, p: nat, d: nat, marks: seq<Mark>)
    requires Control(items, text, code, i, ph, p, d, marks) && i < |items| && Kind(items, i, ph, DUMMY_FAILURE_JUMP)
    ensures p + 2 < |code| && p + 3 + NumAt(code, p + 1) >= 0
    ensures if |marks| >= MAX_POINTS then Refused(items, text, i, ph, d, marks)
            else Restacks(items, text, code, i, ph, d, marks, i, Body, p + 3 + NumAt(code, p + 1), marks + [Dummy])
  {
    hide Reads, Rem, Weight, Compiled, AtomCode, Lo, Hi;
    JumpReads(items, code, i, ph);
    StepDummy(items, text, i, d, marks);
  }

  method DummyFailureJump(buf: array<byte>, used: nat, text: Text, p: nat, d: nat, stack: seq<Failure>, size: nat,
                          ghost items: seq<Item>, ghost i: nat, ghost ph: Phase, ghost marks: seq<Mark>)
    returns (ok: bool, p': nat, stack': seq<Failure>, size': nat, ghost ph': Phase, ghost marks': seq<Mark>)
    requires used <= buf.Length && Control(items, text, buf[..used], i, ph, p, d, marks)
    requires Holds(items, text, stack, marks) && Room(stack, size)
    requires i < |items| && p < used && buf[p] == DUMMY_FAILURE_JUMP
    ensures if ok then Restacks(items, text, buf[..used], i, ph, d, marks, i, ph', p', marks')
                       && Holds(items, text, stack', marks') && Room(stack', size')
            else Refused(items, text, i, ph, d, marks)
  {
    hide Restacks, Refused, Counters, Compiled, Linked, Grounded, AtomCode;
    ghost var code := buf[..used];
    Decode(items, text, code, i, ph, p, d, marks);
    DummyGoes(items, text, code, i, ph, p, d, marks);
    HoldsPush(items, text, stack, marks, Dummy);
    ph', marks' := Body, marks + [Dummy];
    assert NumAt(code, p + 1) == Extract(buf[p + 1], buf[p + 2]);
    p' := p + 3 + Extract(buf[p + 1], buf[p + 2]);
    ok, stack', size' := PushFailurePoint(stack, size, Null);
  }

  // ---------- Jumps ----------

  lemma ForwardGoes(items: seq<Item>, text: Text, code: seq<byte>, i: nat, ph: Phase, p: nat, d: nat, marks: seq<Mark>)
    requires Control(items, text, code, i, ph, p, d, marks) && i < |items| && ph.Start?
    requires (items[i].Past? || Skipped(items[i]))
    ensures var j := if items[i].Past? then i + items[i].hop else i + 1;
            p + 2 < |code| && p + 3 + NumAt(code, p + 1) >= 0
            && Restacks(items, text, code, i, ph, d, marks, j, Start, p + 3 + NumAt(code, p + 1), marks)
  {
    hide Reads, Rem, Weight, Compiled, AtomCode, Lo, Hi;
    JumpReads(items, code, i, ph);
    StepForward(items, text, i, d, marks);
  }

  lemma BackGoes(items: seq<Item>, text: Text, code: seq<byte>, i: nat, p: nat, d: nat, marks: seq<Mark>)
    requires Control(items, text, code, i, Back, p, d, marks)
    ensures i < |items| && IsLoop(items, i) && (PopChosen(items, i) ==> marks != [])
    ensures var rest := if PopChosen(items, i) then marks[..|marks| - 1] else marks;
            p + 2 < |code| && p + 3 + NumAt(code, p + 1) >= 0
            && Restacks(items, text, code, i, Back, d, marks, i, TopOfLoop(items, i), p + 3 + NumAt(code, p + 1), rest)
  {
    hide Reads, Rem, Weight, Compiled, AtomCode, Lo, Hi;
    JumpReads(items, code, i, Back);
    StepBack(items, text, i, d, marks);
  }

  // pop_failure_jump, jump and jump_past_alt.
  method Jump(buf: array<byte>, used: nat, text: Text, p: nat, d: nat, stack: seq<Failure>, size: nat,
              ghost items: seq<Item>, ghost i: nat, ghost ph: Phase, ghost marks: seq<Mark>)
    returns (p': nat, stack': seq<Failure>, ghost i': nat, ghost ph': Phase, ghost marks': seq<Mark>)
    requires used <= buf.Length && Control(items, text, buf[..used], i, ph, p, d, marks)
    requires Holds(items, text, stack, marks) && Room(stack, size)
    requires i < |items| && p < used && buf[p] in {POP_FAILURE_JUMP, JUMP, JUMP_PAST_ALT}
    ensures Restacks(items, text, buf[..used], i, ph, d, marks, i', ph', p', marks')
    ensures Holds(items, text, stack', marks') && Room(stack', size)
  {
    hide Restacks, Counters, Compiled;
    ghost var code := buf[..used];
    Decode(items, text, code, i, ph, p, d, marks);
    marks', stack' := marks, stack;
    if ph.Back? {
      BackGoes(items, text, code, i, p, d, marks);
      i', ph' := i, TopOfLoop(items, i);
      if buf[p] == POP_FAILURE_JUMP { marks' := marks[..|marks| - 1]; }
    } else {
      ForwardGoes(items, text, code, i, ph, p, d, marks);
      i', ph' := if items[i].Past? then i + items[i].hop else i + 1, Start;
    }
    if buf[p] == POP_FAILURE_JUMP {
      HoldsPop(items, text, stack, marks);
      stack' := stack[..|stack| - 1];
    }
    assert NumAt(code, p + 1) == Extract(buf[p + 1], buf[p + 2]);
    p' := p + 3 + Extract(buf[p + 1], buf[p + 2]);
  }

  // What maybe_pop_jump looks at: its loop body, and the code after it.
  lemma LoopBody(items: seq<Item>, code: seq<byte>, i: nat)
    requires Ready(items, code) && PhaseOk(items, i, Back) && i < |items|
    ensures var (p, a) := (Addr(items, i, Back), AtomCode(items[i].piece.atom));
            && p + 2 < |code| && p + 3 + NumAt(code, p + 1) + 3 == p - |a| && p >= |a| && p <= |code|
            && code[p - |a|..p] == a
  {
    hide AtomCode, Lo, Hi, Reads, Compiled, Linked;
    JumpReads(items, code, i, Back);
    AtomBytes(items, code, i, Body);
  }

  lemma LoopFollow(items: seq<Item>, code: seq<byte>, i: nat)
    requires Compiled(items, code) && PhaseOk(items, i, Back) && i < |items|
    ensures var p := Addr(items, i, Back);
            && p + 3 == Off(items, i + 1) <= |code| && (p + 3 == |code| <==> i + 1 == |items|)
            && (i + 1 < |items| ==> WfItem(items[i + 1]) && code[p + 3] == FirstOp(items[i + 1]))
            && (i + 1 < |items| && items[i + 1].Term? && items[i + 1].piece.Exact? ==>
                  p + 5 < |code| && code[p + 5] == items[i + 1].piece.s[0])
  {
    hide AtomCode, Lo, Hi, Reads;
    var s := SlotBytes(items, code, i);
    if i + 1 < |items| {
      FirstByte(items, code, i + 1);
      if items[i + 1].Term? && items[i + 1].piece.Exact? {
        LiteralBytes(items, code, i + 1, Start);
        var q, n := Off(items, i + 1), |items[i + 1].piece.s|;
        assert code[q + 2] == code[q + 2..q + 2 + n][0];
      }
    }
  }

  // Which of the opcodes that may follow a loop make maybe_pop_jump look further.
  lemma Follows(items: seq<Item>, i: nat)
    requires IsLoop(items, i) && i + 1 < |items| && WfItem(items[i + 1])
    ensures var (next, op, atom) := (items[i + 1], FirstOp(items[i + 1]), items[i].piece.atom);
            && (op == EXACTN ==>
                  next.Term? && next.piece.Exact? && PopChosen(items, i) == NoClash(atom, next.piece.s[0]))
            && (op == ENDLINE ==> PopChosen(items, i) == NoClash(atom, NEWLINE))
            && (op != EXACTN && op != ENDLINE ==> !PopChosen(items, i))
  {
    hide NoClash;
  }

  lemma SetBodyBytes(atom: Atom, c: byte)
    requires atom.Set?
    ensures var (s, i: int) := (AtomCode(atom), c);
            && s[0] == (if atom.neg then CHARSET_NOT else CHARSET) && s[1] == MapLen(atom.members)
            && |s| == 2 + MapLen(atom.members)
            && (i < 8 * MapLen(atom.members) ==> (Bit(s[2 + i / 8], i % 8) <==> c in atom.members))
  {
    hide MapLen, Bit;
    InMapIsMember(atom.members, c);
    var (s, i: int, bits) := (AtomCode(atom), c, [MapLen(atom.members)] + MapBytes(atom.members, MapLen(atom.members)));
    assert s == [s[0]] + bits;
    if i < 8 * MapLen(atom.members) { assert s[2 + i / 8] == bits[1 + i / 8]; }
  }

  // The test of the loop body, with its truncating cast.
  method ExamineBody(buf: array<byte>, at: nat, c: byte, ghost atom: Atom) returns (pop: bool)
    requires at + |AtomCode(atom)| <= buf.Length && buf[at..at + |AtomCode(atom)|] == AtomCode(atom)
    ensures pop == NoClash(atom, c)
  {
    hide MapLen, MapBytes, Bit;
    ghost var a := AtomCode(atom);
    assert forall j: nat | j < |a| :: buf[at + j] == buf[at..at + |a|][j] == a[j];
    assert buf[at + 0] == a[0] && (|a| > 1 ==> buf[at + 1] == a[1]) && (|a| > 2 ==> buf[at + 2] == a[2]);
    if atom.Set? { SetBodyBytes(atom, c); }
    pop := false;
    if buf[at] == EXACTN && buf[at + 2] != c {
      pop := true;
    } else if buf[at] == CHARSET || buf[at] == CHARSET_NOT {
      var not := buf[at] == CHARSET_NOT;
      var i: int, n: int := c, buf[at + 1];
      if i < (n * 8) % 256 {
        assert buf[at + (2 + i / 8)] == a[2 + i / 8];
        if Bit(buf[at + 2 + i / 8], i % 8) { not := !not; }
      }
      pop := !not;
    }
  }

  // Decides between pop_failure_jump and jump.
  method ExamineLoop(buf: array<byte>, used: nat, p: nat, ghost items: seq<Item>, ghost i: nat) returns (pop: bool)
    requires used <= buf.Length && Ready(items, buf[..used])
    requires PhaseOk(items, i, Back) && i < |items| && p == Addr(items, i, Back)
    ensures pop == PopChosen(items, i)
  {
    hide Compiled, Linked, Grounded, Off, FirstOp, AtomCode, NoClash;
    ghost var code := buf[..used];
    LoopBody(items, code, i);
    LoopFollow(items, code, i);
    assert NumAt(code, p + 1) == Extract(buf[p + 1], buf[p + 2]);
    var p2 := p + 3;
    if p2 == used { return true; }
    Follows(items, i);
    if buf[p2] != EXACTN && buf[p2] != ENDLINE { return false; }
    var c: byte := if buf[p2] == ENDLINE then NEWLINE else buf[p2 + 2];
    var body := p2 + Extract(buf[p + 1], buf[p + 2]) + 3;
    SliceOfCode(buf, used, body, p);
    pop := ExamineBody(buf, body, c, items[i].piece.atom);
  }

  // maybe_pop_jump: becomes one of the two, in place, and is executed as that.
  method MaybePopJump(buf: array<byte>, used: nat, text: Text, p: nat, d: nat,
                      ghost items: seq<Item>, ghost i: nat, ghost ph: Phase, ghost marks: seq<Mark>)
    requires used <= buf.Length && Control(items, text, buf[..used], i, ph, p, d, marks)
    requires i < |items| && p < used && buf[p] == MAYBE_POP_JUMP
    modifies buf
    ensures Control(items, text, buf[..used], i, ph, p, d, marks)
    ensures buf[p] in {POP_FAILURE_JUMP, JUMP}
  {
    hide Compiled, Linked, Grounded;
    ghost var code := buf[..used];
    Decode(items, text, code, i, ph, p, d, marks);
    PatchBack(items, code, i);
    var pop := ExamineLoop(buf, used, p, items, i);
    buf[p] := if pop then POP_FAILURE_JUMP else JUMP;
    assert buf[..used] == code[p := buf[p]];
  }

  // ---------- Intervals ----------

  lemma CounterGoes(items: seq<Item>, text: Text, code: seq<byte>, code': seq<byte>, i: nat, ph: Phase, p: nat, d: nat,
                    marks: seq<Mark>, p': nat)
    requires Control(items, text, code, i, ph, p, d, marks) && AtCounter(items, i, ph)
    requires var r := AfterCounter(items, i, ph); p' == Addr(items, r.0, r.1) && Counters(items, code', r.0, r.1)
    requires Compiled(items, code')
    ensures var r := AfterCounter(items, i, ph);
            Restacks(items, text, code', i, ph, d, marks, r.0, r.1, p', marks)
  {
    hide Compiled, Rem, Weight, Counters;
    StepCounter(items, text, i, ph, d, marks);
  }

  lemma SetCounters(items: seq<Item>, code: seq<byte>, i: nat, ph: Phase)
    requires Compiled(items, code) && AtCounter(items, i, ph) && (ph.Start? || ph.SecondSet?)
    requires Counters(items, code, i, ph)
    ensures var (jump, q, r) := (SetsJump(items, i, ph), items[i].piece.q, AfterCounter(items, i, ph));
            var k := if jump then JumpCountAt(items, i) else SuccCountAt(items, i);
            var v := if jump then q.hi - 1 else q.lo;
            k + 1 < |code| && Compiled(items, Put(code, k, v)) && Counters(items, Put(code, k, v), r.0, r.1)
  {
    hide Compiled, Lo, Hi;
    var (jump, q) := (SetsJump(items, i, ph), items[i].piece.q);
    var k := if jump then JumpCountAt(items, i) else SuccCountAt(items, i);
    var v := if jump then q.hi - 1 else q.lo;
    PatchCount(items, code, i, jump, v);
    if ph.SecondSet? { OtherCount(code, Put(code, k, v), k, k + 2, JumpCountAt(items, i), q.hi - 1); }
  }

  method SetNumberAt(buf: array<byte>, used: nat, text: Text, p: nat, d: nat,
                     ghost items: seq<Item>, ghost i: nat, ghost ph: Phase, ghost marks: seq<Mark>)
    returns (p': nat, ghost i': nat, ghost ph': Phase)
    requires used <= buf.Length && Control(items, text, buf[..used], i, ph, p, d, marks)
    requires i < |items| && p < used && buf[p] == SET_NUMBER_AT
    modifies buf
    ensures Restacks(items, text, buf[..used], i, ph, d, marks, i', ph', p', marks)
  {
    hide Compiled, Linked, Grounded, Counters, Lo, Hi, AtomCode, Restacks;
    ghost var code := buf[..used];
    Decode(items, text, code, i, ph, p, d, marks);
    SetReads(items, code, i, ph);
    SetCounters(items, code, i, ph);
    assert NumAt(code, p + 1) == Extract(buf[p + 1], buf[p + 2]) && NumAt(code, p + 3) == Extract(buf[p + 3],
                 buf[p + 4]);
    var p1 := p + 3 + Extract(buf[p + 1], buf[p + 2]);
    var mcnt := Extract(buf[p + 3], buf[p + 4]);
    StoreNumber(buf, used, p1, mcnt);
    ghost var r := AfterCounter(items, i, ph);
    p', i', ph' := p + 5, r.0, r.1;
    CounterGoes(items, text, code, buf[..used], i, ph, p, d, marks, p');
  }

  lemma NopGoes(items: seq<Item>, text: Text, code: seq<byte>, i: nat, ph: Phase, p: nat, d: nat, marks: seq<Mark>)
    requires Control(items, text, code, i, ph, p, d, marks) && (ph.NopA? || ph.NopB?)
    ensures i < |items|
    ensures var r := AfterCounter(items, i, ph); Restacks(items, text, code, i, ph, d, marks, r.0, r.1, p + 1, marks)
  {
    hide Compiled, Linked, Grounded, Lo, Hi, AtomCode;
    CounterGoes(items, text, code, code, i, ph, p, d, marks, p + 1);
  }

  // The count of a succeed_n or jump_n, as it reads in the code.
  lemma SuccReads(items: seq<Item>, code: seq<byte>, i: nat, ph: Phase)
    requires Compiled(items, code) && PhaseOk(items, i, ph) && ph.Succ? && Counters(items, code, i, ph)
    ensures i < |items| && SuccCountAt(items, i) == Addr(items, i, ph) + 3 && Addr(items, i, ph) + 4 < |code|
    ensures NumAt(code, Addr(items, i, ph) + 3) == Left(items[i].piece.q.lo, ph.c)
  {
    hide Compiled, Lo, Hi, AtomCode;
    WfAt(items, code, i);
    NumReads(code, Addr(items, i, ph) + 3, Left(items[i].piece.q.lo, ph.c));
  }

  lemma WfAt(items: seq<Item>, code: seq<byte>, i: nat)
    requires Compiled(items, code) && i < |items|
    ensures WfItem(items[i])
  {
  }

  // Counting a succeed_n down, or marking it exhausted.
  lemma SuccCounters(items: seq<Item>, code: seq<byte>, i: nat, c: nat, v: int)
    requires Compiled(items, code) && PhaseOk(items, i, Succ(c)) && i < |items| && Counters(items, code, i, Succ(c))
    requires v == Left(items[i].piece.q.lo, c + 1)
    ensures SuccCountAt(items, i) + 1 < |code|
    ensures var code' := Put(code, SuccCountAt(items, i), v);
            Compiled(items, code') && Counters(items, code', i, if c < items[i].piece.q.lo then BodyN(c) else NopA(c))
  {
    hide Compiled, Lo, Hi;
    var k := SuccCountAt(items, i);
    PatchCount(items, code, i, false, v);
    if items[i].piece.q.hi > 1 {
      OtherCount(code, Put(code, k, v), k, k + 2, JumpCountAt(items, i), items[i].piece.q.hi - 1 - c);
    }
  }

  lemma SuccPushGoes(items: seq<Item>, text: Text, code: seq<byte>, code': seq<byte>, i: nat, ph: Phase, p: nat, d: nat,
                     marks: seq<Mark>)
    requires Control(items, text, code, i, ph, p, d, marks) && ph.Succ? && i < |items| && items[i].piece.q.lo <= ph.c
    requires Compiled(items, code') && Counters(items, code', i, NopA(ph.c))
    ensures Landing(items, i + 1)
    ensures p + 2 < |code| && p + 3 + NumAt(code, p + 1) == Off(items, i + 1)
    ensures if |marks| >= MAX_POINTS then Refused(items, text, i, ph, d, marks)
            else Restacks(items, text, code', i, ph, d, marks, i, NopA(ph.c), p + 3, marks + [Point(i + 1, d)])
  {
    hide Reads, Rem, Weight, Compiled, AtomCode, Lo, Hi, CountsAre;
    JumpReads(items, code, i, ph);
    StepPush(items, text, i, ph, d, marks);
  }

  // succeed_n with a count left: it must succeed once more.
  method SucceedOnce(buf: array<byte>, used: nat, text: Text, p: nat, d: nat, mcnt: int,
                     ghost items: seq<Item>, ghost i: nat, ghost ph: Phase, ghost marks: seq<Mark>)
    returns (p': nat)
    requires used <= buf.Length && Control(items, text, buf[..used], i, ph, p, d, marks)
    requires i < |items| && ph.Succ? && mcnt == Left(items[i].piece.q.lo, ph.c) > 0
    modifies buf
    ensures Restacks(items, text, buf[..used], i, ph, d, marks, i, BodyN(ph.c), p', marks)
  {
    hide Compiled, Linked, Grounded, Counters, Lo, Hi, AtomCode, Restacks;
    ghost var code := buf[..used];
    SuccReads(items, code, i, ph);
    SuccCounters(items, code, i, ph.c, mcnt - 1);
    StoreNumber(buf, used, p + 3, mcnt - 1);
    p' := p + 5;
    CounterGoes(items, text, code, buf[..used], i, ph, p, d, marks, p');
  }

  // succeed_n with its count used up: its count becomes two no_ops and it acts as on_failure_jump.
  method SucceedDone(buf: array<byte>, used: nat, text: Text, p: nat, d: nat, stack: seq<Failure>, size: nat,
                     ghost items: seq<Item>, ghost i: nat, ghost ph: Phase, ghost marks: seq<Mark>)
    returns (ok: bool, p': nat, stack': seq<Failure>, size': nat, ghost marks': seq<Mark>)
    requires used <= buf.Length && Control(items, text, buf[..used], i, ph, p, d, marks)
    requires Holds(items, text, stack, marks) && Room(stack, size)
    requires i < |items| && ph.Succ? && Left(items[i].piece.q.lo, ph.c) == 0
    modifies buf
    ensures Ready(items, buf[..used])
    ensures if ok then Restacks(items, text, buf[..used], i, ph, d, marks, i, NopA(ph.c), p', marks')
                       && Holds(items, text, stack', marks') && Room(stack', size')
            else Refused(items, text, i, ph, d, marks)
  {
    hide Compiled, Linked, Grounded, Counters, Lo, Hi, AtomCode, Restacks, Refused, Holds;
    ghost var code := buf[..used];
    SuccReads(items, code, i, ph);
    SuccCounters(items, code, i, ph.c, 0);
    StoreNoOps(buf, used, p + 3);
    SuccPushGoes(items, text, code, buf[..used], i, ph, p, d, marks);
    assert NumAt(code, p + 1) == Extract(buf[p + 1], buf[p + 2]);
    p' := p + 3;
    marks' := marks + [Point(i + 1, d)];
    HoldsPush(items, text, stack, marks, Point(i + 1, d));
    ok, stack', size' := PushFailurePoint(stack, size, Retry(p' + Extract(buf[p + 1], buf[p + 2]), d));
  }

  method SucceedN(buf: array<byte>, used: nat, text: Text, p: nat, d: nat, stack: seq<Failure>, size: nat,
                  ghost items: seq<Item>, ghost i: nat, ghost ph: Phase, ghost marks: seq<Mark>)
    returns (ok: bool, p': nat, stack': seq<Failure>, size': nat, ghost ph': Phase, ghost marks': seq<Mark>)
    requires used <= buf.Length && Control(items, text, buf[..used], i, ph, p, d, marks)
    requires Holds(items, text, stack, marks) && Room(stack, size)
    requires i < |items| && p < used && buf[p] == SUCCEED_N
    modifies buf
    ensures Ready(items, buf[..used])
    ensures if ok then Restacks(items, text, buf[..used], i, ph, d, marks, i, ph', p', marks')
                       && Holds(items, text, stack', marks') && Room(stack', size')
            else Refused(items, text, i, ph, d, marks)
  {
    hide Compiled, Linked, Grounded, Counters, AtomCode, Refused, Holds, Rem;
    Decode(items, text, buf[..used], i, ph, p, d, marks);
    SuccReads(items, buf[..used], i, ph);
    assert NumAt(buf[..used], p + 3) == Extract(buf[p + 3], buf[p + 4]);
    var mcnt := Extract(buf[p + 3], buf[p + 4]);
    if mcnt > 0 {
      ph', ok, stack', size', marks' := BodyN(ph.c), true, stack, size, marks;
      p' := SucceedOnce(buf, used, text, p, d, mcnt, items, i, ph, marks);
    } else {
      ph' := NopA(ph.c);
      ok, p', stack', size', marks' := SucceedDone(buf, used, text, p, d, stack, size, items, i, ph, marks);
    }
  }

  lemma JumpNReads(items: seq<Item>, code: seq<byte>, i: nat, ph: Phase)
    requires Compiled(items, code) && PhaseOk(items, i, ph) && ph.JumpN? && Counters(items, code, i, ph)
    ensures i < |items| && JumpCountAt(items, i) == Addr(items, i, ph) + 3 && Addr(items, i, ph) + 4 < |code|
    ensures NumAt(code, Addr(items, i, ph) + 3) == items[i].piece.q.hi - ph.c
  {
    hide Compiled, Lo, Hi, AtomCode;
    WfAt(items, code, i);
    NumReads(code, Addr(items, i, ph) + 3, items[i].piece.q.hi - ph.c);
  }

  lemma JumpNCounters(items: seq<Item>, code: seq<byte>, i: nat, c: nat)
    requires Compiled(items, code) && PhaseOk(items, i, JumpN(c)) && i < |items| && Counters(items, code, i, JumpN(c))
    requires c < items[i].piece.q.hi
    ensures JumpCountAt(items, i) + 1 < |code|
    ensures var code' := Put(code, JumpCountAt(items, i), items[i].piece.q.hi - c - 1);
            Compiled(items, code') && Counters(items, code', i, Succ(c))
  {
    hide Compiled, Lo, Hi;
    var k, v := JumpCountAt(items, i), items[i].piece.q.hi - c - 1;
    PatchCount(items, code, i, true, v);
    OtherCount(code, Put(code, k, v), k, k + 2, SuccCountAt(items, i), Left(items[i].piece.q.lo, c));
  }

  // jump_n with a count left.
  method JumpAgain(buf: array<byte>, used: nat, text: Text, p: nat, d: nat, mcnt: int,
                   ghost items: seq<Item>, ghost i: nat, ghost ph: Phase, ghost marks: seq<Mark>)
    returns (p': nat)
    requires used <= buf.Length && Control(items, text, buf[..used], i, ph, p, d, marks)
    requires i < |items| && ph.JumpN? && mcnt == items[i].piece.q.hi - ph.c > 0
    modifies buf
    ensures Restacks(items, text, buf[..used], i, ph, d, marks, i, Succ(ph.c), p', marks)
  {
    hide Compiled, Linked, Grounded, Counters, Lo, Hi, AtomCode, Restacks;
    ghost var code := buf[..used];
    JumpNReads(items, code, i, ph);
    JumpReads(items, code, i, ph);
    assert NumAt(code, p + 1) == Extract(buf[p + 1], buf[p + 2]);
    p' := p + 3 + Extract(buf[p + 1], buf[p + 2]);
    JumpNCounters(items, code, i, ph.c);
    StoreNumber(buf, used, p + 3, mcnt - 1);
    CounterGoes(items, text, code, buf[..used], i, ph, p, d, marks, p');
  }

  method JumpNTimes(buf: array<byte>, used: nat, text: Text, p: nat, d: nat,
                    ghost items: seq<Item>, ghost i: nat, ghost ph: Phase, ghost marks: seq<Mark>)
    returns (p': nat, ghost i': nat, ghost ph': Phase)
    requires used <= buf.Length && Control(items, text, buf[..used], i, ph, p, d, marks)
    requires i < |items| && p < used && buf[p] == JUMP_N
    modifies buf
    ensures Restacks(items, text, buf[..used], i, ph, d, marks, i', ph', p', marks)
  {
    hide Compiled, Linked, Grounded, Counters, AtomCode, Restacks, Sane;
    ghost var code := buf[..used];
    Decode(items, text, code, i, ph, p, d, marks);
    JumpNReads(items, code, i, ph);
    assert NumAt(code, p + 3) == Extract(buf[p + 3], buf[p + 4]);
    var mcnt := Extract(buf[p + 3], buf[p + 4]);
    if mcnt != 0 {
      i', ph' := i, Succ(ph.c);
      p' := JumpAgain(buf, used, text, p, d, mcnt, items, i, ph, marks);
    } else {
      i', ph', p' := i + 1, Start, p + 5;
      IntervalEnds(items, text, code, i, ph, p, d, marks);
    }
  }

  lemma IntervalEnds(items: seq<Item>, text: Text, code: seq<byte>, i: nat, ph: Phase, p: nat, d: nat, marks: seq<Mark>)
    requires Control(items, text, code, i, ph, p, d, marks) && ph.JumpN? && i < |items| && ph.c == items[i].piece.q.hi
    ensures Restacks(items, text, code, i, ph, d, marks, i + 1, Start, p + 5, marks)
  {
    hide Compiled, Linked, Grounded, Lo, Hi, AtomCode, Restacks;
    EndOfInterval(items, code, i, ph);
    CounterGoes(items, text, code, code, i, ph, p, d, marks, p + 5);
  }

  lemma EndOfInterval(items: seq<Item>, code: seq<byte>, i: nat, ph: Phase)
    requires PhaseOk(items, i, ph) && ph.JumpN? && ph.c == items[i].piece.q.hi
    ensures AtCounter(items, i, ph) && AfterCounter(items, i, ph) == (i + 1, Start)
    ensures Addr(items, i, ph) + 5 == Addr(items, i + 1, Start)
    ensures Counters(items, code, i + 1, Start)
  {
  }

  // ---------- fail: ----------

  // Whether a failure point for item i is taken for the backward jump of a loop.
  lemma DropReads(items: seq<Item>, code: seq<byte>, i: nat)
    requires Ready(items, code) && Landing(items, i)
    ensures Off(items, i) <= |code| && (Off(items, i) < |code| <==> i < |items|)
    ensures i < |items| ==> (code[Off(items, i)] == JUMP <==> Skipped(items[i]))
                            && code[Off(items, i)] !in {JUMP_N, MAYBE_POP_JUMP, POP_FAILURE_JUMP}
    ensures i < |items| && Skipped(items[i]) ==>
              var p := Off(items, i);
              && p + 2 < |code| && 0 <= p + 3 + NumAt(code, p + 1) < |code|
              && (code[p + 3 + NumAt(code, p + 1)] == ON_FAILURE_JUMP <==> Dropped(items, i))
  {
    hide Compiled, Lo, Hi, AtomCode;
    OffMonotone(items, i, |items|);
    if i < |items| {
      FirstByte(items, code, i);
      OffMonotone(items, i + 1, |items|);
      JumpingFirst(items, i);
      if Skipped(items[i]) {
        JumpReads(items, code, i, Start);
        FirstByte(items, code, i + 1);
      }
    } else {
      WholeLength(items, code);
    }
  }

  lemma WholeLength(items: seq<Item>, code: seq<byte>)
    requires Compiled(items, code)
    ensures |code| == Off(items, |items|)
  {
  }

  lemma JumpingFirst(items: seq<Item>, i: nat)
    requires i < |items|
    ensures FirstOp(items[i]) == JUMP <==> Skipped(items[i])
    ensures FirstOp(items[i]) !in {JUMP_N, MAYBE_POP_JUMP, POP_FAILURE_JUMP}
  {
  }

  // Pops failure points until one can be resumed.
  method Fail(buf: array<byte>, used: nat, text: Text, stack: seq<Failure>, size: nat,
              ghost items: seq<Item>, ghost marks: seq<Mark>)
    returns (found: bool, p: nat, d: nat, stack': seq<Failure>, ghost i: nat, ghost marks': seq<Mark>)
    requires used <= buf.Length && Ready(items, buf[..used]) && Holds(items, text, stack, marks) && Room(stack, size)
    ensures !found ==> FromStack(items, text, marks) == []
    ensures found ==>
              && Control(items, text, buf[..used], i, Start, p, d, marks')
              && Holds(items, text, stack', marks') && Room(stack', size)
              && Rem(items, text, i, Start, d, marks') == FromStack(items, text, marks)
              && Weight(items, text, i, Start, d, marks') <= StackWeight(items, text, marks)
  {
    hide Compiled, Grounded, Weight, Rem, AtomCode, Lo, Hi;
    ghost var code := buf[..used];
    found, p, d, stack', marks', i := false, 0, 0, stack, marks, 0;
    while stack' != []
      invariant Holds(items, text, stack', marks') && |stack'| <= |stack|
      invariant FromStack(items, text, marks') == FromStack(items, text, marks)
      invariant StackWeight(items, text, marks') <= StackWeight(items, text, marks)
      decreases |stack'|
    {
      var top := stack'[|stack'| - 1];
      ghost var m := marks'[|marks'| - 1];
      StepFail(items, text, marks');
      HoldsPop(items, text, stack', marks');
      stack', marks' := stack'[..|stack'| - 1], marks'[..|marks'| - 1];
      if top.Retry? {
        p, d, i := top.pat, top.str, m.i;
        DropReads(items, code, i);
        var drop := false;
        if p < used && buf[p] in {JUMP_N, MAYBE_POP_JUMP, POP_FAILURE_JUMP, JUMP} {
          assert NumAt(code, p + 1) == Extract(buf[p + 1], buf[p + 2]);
          var p1 := p + 3 + Extract(buf[p + 1], buf[p + 2]);
          drop := buf[p1] == (if buf[p] == JUMP_N then SUCCEED_N else ON_FAILURE_JUMP);
        }
        if !drop {
          found := true;
          return;
        }
      }
    }
  }

  // ---------- The loop over pattern commands ----------

  // Execution goes on at (i', ph'), in one step.
  ghost predicate Advances(items: seq<Item>, text: Text, code: seq<byte>, i: nat, ph: Phase, d: nat, marks: seq<Mark>,
                           i': nat, ph': Phase, p': nat, d': nat, marks': seq<Mark>)
    requires Sane(items, text, i, ph, d, marks)
  {
    Control(items, text, code, i', ph', p', d', marks') && Moves(items, text, i, ph, d, marks, i', ph', d', marks')
  }

  // Executes one command that is not the end of the pattern.
  method Step(buf: array<byte>, used: nat, text: Text, p: nat, d: nat, stack: seq<Failure>, size: nat,
              ghost items: seq<Item>, ghost i: nat, ghost ph: Phase, ghost marks: seq<Mark>)
    returns (st: Status, p': nat, d': nat, stack': seq<Failure>, size': nat, ghost i': nat, ghost ph': Phase,
             ghost marks': seq<Mark>)
    requires used <= buf.Length && d <= |text| && Control(items, text, buf[..used], i, ph, p, d, marks)
    requires Holds(items, text, stack, marks) && Room(stack, size) && i < |items|
    modifies buf
    ensures Ready(items, buf[..used])
    ensures st == Ran ==> Advances(items, text, buf[..used], i, ph, d, marks, i', ph', p', d', marks')
                          && Holds(items, text, stack', marks') && Room(stack', size')
    ensures st == Failed ==> Fails(items, text, i, ph, d, marks)
    ensures st == NoRoom ==> Refused(items, text, i, ph, d, marks)
  {
    hide Compiled, Linked, Grounded, Sane, Counters, Moves, AtomCode, Off, Rem, Weight, Holds, Refused, Fails;
    Decode(items, text, buf[..used], i, ph, p, d, marks);
    st, p', d', stack', size', i', ph', marks' := Ran, p, d, stack, size, i, ph, marks;
    if buf[p] == MAYBE_POP_JUMP {
      MaybePopJump(buf, used, text, p, d, items, i, ph, marks);
    }
    var ok := true;
    if buf[p] == EXACTN {
      ok, p', d', i', ph' := Exactn(buf, used, text, p, d, items, i, ph, marks);
    } else if buf[p] == ANYCHAR {
      ok, p', d', i', ph' := Anychar(buf, used, text, p, d, items, i, ph, marks);
    } else if buf[p] == CHARSET || buf[p] == CHARSET_NOT {
      ok, p', d', i', ph' := Charset(buf, used, text, p, d, items, i, ph, marks);
    } else if buf[p] in {BEGLINE, ENDLINE, BEGBUF, ENDBUF} {
      ok, p', i', ph' := Anchors(buf, used, text, p, d, items, i, ph, marks);
    } else if buf[p] == ON_FAILURE_JUMP {
      ok, p', stack', size', i', ph', marks' := OnFailureJump(buf, used, text, p, d, stack, size, items, i, ph, marks);
      if !ok { st := NoRoom; return; }
    } else if buf[p] == DUMMY_FAILURE_JUMP {
      ok, p', stack', size', ph', marks' := DummyFailureJump(buf, used, text, p, d, stack, size, items, i, ph, marks);
      if !ok { st := NoRoom; return; }
    } else if buf[p] in {POP_FAILURE_JUMP, JUMP, JUMP_PAST_ALT} {
      p', stack', i', ph', marks' := Jump(buf, used, text, p, d, stack, size, items, i, ph, marks);
    } else if buf[p] == SUCCEED_N {
      ok, p', stack', size', ph', marks' := SucceedN(buf, used, text, p, d, stack, size, items, i, ph, marks);
      if !ok { st := NoRoom; return; }
    } else if buf[p] == JUMP_N {
      p', i', ph' := JumpNTimes(buf, used, text, p, d, items, i, ph, marks);
    } else if buf[p] == SET_NUMBER_AT {
      p', i', ph' := SetNumberAt(buf, used, text, p, d, items, i, ph, marks);
    } else {
      NopGoes(items, text, buf[..used], i, ph, p, d, marks);
      ghost var r := AfterCounter(items, i, ph);
      p', i', ph' := p + 1, r.0, r.1;
    }
    if !ok { st := Failed; }
  }

  lemma AtEnd(items: seq<Item>, text: Text, code: seq<byte>, i: nat, ph: Phase, p: nat, d: nat, marks: seq<Mark>,
              best: int)
    requires Control(items, text, code, i, ph, p, d, marks)
    ensures p == |code| <==> i == |items|
    ensures p <= |code|
    ensures i == |items| ==>
              Outcome(Rem(items, text, i, ph, d, marks), best, |text|) ==
              if d == |text| then d
              else if marks == [] then (if best >= 0 then best else d)
              else Outcome(FromStack(items, text, marks), if d > best then d else best, |text|)
  {
    if i < |items| {
      Decode(items, text, code, i, ph, p, d, marks);
    } else {
      WholeLength(items, code);
      var rest := FromStack(items, text, marks);
      var evs := [Hit(d, marks == [])] + rest;
      assert Rem(items, text, i, ph, d, marks) == evs && evs[1..] == rest;
    }
  }

  lemma Begins(items: seq<Item>, text: Text, code: seq<byte>, d: nat)
    requires Ready(items, code) && d <= |text|
    ensures Control(items, text, code, 0, Start, 0, d, []) && Holds(items, text, [], [])
    ensures Rem(items, text, 0, Start, d, []) == Ev(items, text, 0, d, 0)
  {
    assert Ev(items, text, 0, d, 0) + [] == Ev(items, text, 0, d, 0);
  }

  /** Matches the compiled pattern at pos. The buffer is left compiled from the same items, whatever
      has been rewritten in it; the value depends on the items, the text and pos alone. */
  method ReMatch2(buf: array<byte>, used: nat, text: Text, pos: int, ghost items: seq<Item>) returns (r: int)
    requires used <= buf.Length && Ready(items, buf[..used])
    modifies buf
    ensures Ready(items, buf[..used])
    ensures r == MatchResult(items, text, pos)
  {
    hide Compiled, Linked, Grounded, Counters, AtomCode, Off, Rem, Ev, FromStack;
    if pos < 0 || pos > |text| { return -1; }
    var p: nat, d: nat, stack: seq<Failure>, size: nat := 0, pos, [], INIT_FAILURE_ALLOC;
    var bestRegsSet, matchEnd: nat := false, 0;
    ghost var i: nat, ph, marks := 0, Start, [];
    Begins(items, text, buf[..used], d);
    ghost var goal := Outcome(Ev(items, text, 0, pos, 0), -1, |text|);
    while true
      invariant Control(items, text, buf[..used], i, ph, p, d, marks)
      invariant Holds(items, text, stack, marks) && Room(stack, size) && |stack| == |marks|
      invariant Outcome(Rem(items, text, i, ph, d, marks), if bestRegsSet then matchEnd else -1, |text|) == goal
      invariant i <= |items| && MarksOk(items, text, marks)
      decreases Weight(items, text, i, ph, d, marks)
    {
      AtEnd(items, text, buf[..used], i, ph, p, d, marks, if bestRegsSet then matchEnd else -1);
      var failed := false;
      if p == used {
        if d != |text| {
          if stack != [] {
            if !bestRegsSet || d > matchEnd { bestRegsSet, matchEnd := true, d; }
            failed := true;
          } else if bestRegsSet {
            return matchEnd - pos;
          } else {
            return d - pos;
          }
        } else {
          return d - pos;
        }
      } else {
        var st, p', d', stack', size';
        ghost var i', ph', marks';
        st, p', d', stack', size', i', ph', marks' := Step(buf, used, text, p, d, stack, size, items, i, ph, marks);
        if st == NoRoom { return -2; }
        if st == Failed {
          failed := true;
        } else {
          SameDepth(items, text, stack', marks');
          p, d, stack, size, i, ph, marks := p', d', stack', size', i', ph', marks';
        }
      }
      if failed {
        var found;
        found, p, d, stack, i, marks := Fail(buf, used, text, stack, size, items, marks);
        if !found {
          return if bestRegsSet then matchEnd - pos else -1;
        }
        ph := Start;
        SameDepth(items, text, stack, marks);
      }
    }
  }

  lemma SameDepth(items: seq<Item>, text: Text, stack: seq<Failure>, marks: seq<Mark>)
    requires Holds(items, text, stack, marks)
    ensures |stack| == |marks|
  {
  }
}
