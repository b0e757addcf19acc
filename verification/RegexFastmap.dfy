/**
 re_compile_fastmap: the compiled code is explored, without a text, for the bytes a match can start
 with and for a way to the end that consumes nothing.
 */
module RegexFastmap {
  import opened Bytes
  import opened RegexCode
  import opened RegexFlow

  const INIT_FAILURE_ALLOC: nat := 5

  // re_max_failures times the items a failure point has here: with num_regs 0, the product wraps to 1.
  const MAX_REMEMBERED: nat := 2000

  // The room for remembered addresses: five slots, doubled until they exceed the limit.
  predicate StackSize(n: nat) { n in {5, 10, 20, 40, 80, 160, 320, 640, 1280, 2560} }

  // ---------- Termination ----------

  function Pow2(n: nat): (r: nat)
    ensures r > 0
  {
    if n == 0 then 1 else 2 * Pow2(n - 1)
  }

  lemma {:induction false} Pow2Grows(m: nat, n: nat)
    requires m < n
    ensures 2 * Pow2(m) <= Pow2(n)
    decreases n
  {
    if m < n - 1 { Pow2Grows(m, n - 1); }
  }

  function Cost(used: nat, p: nat): nat { if p < used then Pow2(used - p) else 1 }

  function Work(used: nat, p: nat, stack: seq<nat>): nat {
    if stack == [] then Cost(used, p) else Cost(used, stack[|stack| - 1]) + Work(used, p, stack[..|stack| - 1])
  }

  lemma {:induction false} WorkIs(used: nat, p: nat, stack: seq<nat>)
    ensures Work(used, p, stack) == Cost(used, p) + (Work(used, used, stack) - 1)
  {
    if stack != [] { WorkIs(used, p, stack[..|stack| - 1]); }
  }

  // Moving forward, remembering or not a later point.
  lemma WorkForward(used: nat, p: nat, q: nat, stack: seq<nat>)
    requires p < q <= used
    ensures Work(used, q, stack) < Work(used, p, stack)
  {
    WorkIs(used, p, stack);
    WorkIs(used, q, stack);
    if q < used { Pow2Grows(used - q, used - p); }
  }

  lemma WorkPush(used: nat, p: nat, q: nat, s: nat, stack: seq<nat>)
    requires p + 1 < q < used && p < s < used
    ensures Work(used, q, stack + [s]) < Work(used, p, stack)
  {
    var all := stack + [s];
    assert all[..|all| - 1] == stack;
    WorkIs(used, p, stack);
    WorkIs(used, q, stack);
    Pow2Grows(used - q, used - p - 1);
    Pow2Grows(used - p - 1, used - p);
    if s > p + 1 { Pow2Grows(used - s, used - p - 1); }
  }

  lemma WorkPop(used: nat, stack: seq<nat>)
    requires stack != []
    ensures Work(used, stack[|stack| - 1], stack[..|stack| - 1]) < Work(used, used, stack)
  {
    WorkIs(used, stack[|stack| - 1], stack[..|stack| - 1]);
  }

  // ---------- What has been explored ----------

  // Addresses met so far, and those of them that have been dealt with; the end is among them when an empty
  // match is known to be possible.
  datatype Front = Front(seen: set<nat>, done: set<nat>)

  ghost function Found(fastmap: array<bool>): set<byte>
    requires fastmap.Length == 256
    reads fastmap
  {
    set c: byte | fastmap[c]
  }

  // What is met is explored, and what has been dealt with has been followed up.
  ghost predicate Kept(code: seq<byte>, starts: set<nat>, f: Front, found: set<byte>, canBeNull: bool) {
    && 0 in f.seen && f.done <= f.seen
    && (forall v: nat | v in f.seen :: (v == |code| || v in starts) && Explored(code, v))
    && (forall v: nat, r: nat | v in f.done && Leads(code, v, r) :: r in f.seen)
    && (forall v: nat, c: byte | v in f.done && Accepts(code, v, c) :: c in found)
    && (forall c: byte | c in found :: ExploredFirst(code, c))
    && (canBeNull <==> |code| in f.done)
  }

  // Everything met but not dealt with is where the exploration stands (unless its path is over) or remembered.
  ghost predicate Waiting(code: seq<byte>, starts: set<nat>, f: Front, p: nat, stack: seq<nat>, pathNull: bool) {
    && (forall v: nat | v in f.seen && v !in f.done :: (pathNull && v == p) || v in stack)
    && (pathNull ==> p in f.seen) && (!pathNull ==> p == |code|)
    && (forall k: nat | k < |stack| :: stack[k] in f.seen && stack[k] in starts)
    && p <= |code|
  }

  // NeedBounded the number of remembered addresses: `need` of them at most from an address on.
  ghost predicate NeedBounded(code: seq<byte>, starts: set<nat>, need: nat -> nat) {
    forall p: nat, r: nat | p in starts && Leads(code, p, r) && r < |code| :: BoundAt(code, p, r, need)
  }

  ghost predicate BoundAt(code: seq<byte>, p: nat, r: nat, need: nat -> nat)
    requires Whole(code, p)
  {
    need(r) <= need(p)
    && (&& Pushing(code[p]) && r == p + Size(code, p)
        && 0 <= Target(code, p) < |code| && Leads(code, p, Target(code, p)) ==>
          need(r) < need(p))
  }

  ghost predicate RoomFor(code: seq<byte>, p: nat, stack: seq<nat>, need: nat -> nat) {
    && |stack| + (if p < |code| then need(p) else 0) <= need(0)
    && forall k: nat | k < |stack| :: k + need(stack[k]) <= need(0)
  }

  // charset: from the last bit of the map to the first.
  method MarkCharset(buf: array<byte>, q: nat, fastmap: array<bool>)
    requires q < buf.Length && q + 1 + buf[q] <= buf.Length && buf[q] <= 32 && fastmap.Length == 256
    modifies fastmap
    ensures forall c: byte :: fastmap[c] <==> old(fastmap[c]) || InMap(buf[q..q + 1 + buf[q]], c)
  {
    var n: int := buf[q];
    var j: int := n * 8 - 1;
    while j >= 0
      invariant -1 <= j < n * 8
      invariant forall c: byte :: fastmap[c] <==> old(fastmap[c]) || (j < c < n * 8 && Bit(buf[q + 1 + c / 8], c % 8))
    {
      if Bit(buf[q + 1 + j / 8], j % 8) { fastmap[j] := true; }
      j := j - 1;
    }
  }

  // charset_not: the bytes beyond the map, then those whose bits are clear.
  method MarkCharsetNot(buf: array<byte>, q: nat, fastmap: array<bool>)
    requires q < buf.Length && q + 1 + buf[q] <= buf.Length && buf[q] <= 32 && fastmap.Length == 256
    modifies fastmap
    ensures forall c: byte :: fastmap[c] <==> old(fastmap[c]) || !InMap(buf[q..q + 1 + buf[q]], c)
  {
    var n: int := buf[q];
    var j: int := n * 8;
    while j < 256
      invariant n * 8 <= j <= 256
      invariant forall c: byte :: fastmap[c] <==> old(fastmap[c]) || n * 8 <= c < j
    {
      fastmap[j] := true;
      j := j + 1;
    }
    j := n * 8 - 1;
    while j >= 0
      invariant -1 <= j < n * 8
      invariant forall c: byte ::
                  fastmap[c] <==> old(fastmap[c]) || n * 8 <= c || (j < c && !Bit(buf[q + 1 + c / 8], c % 8))
    {
      if !Bit(buf[q + 1 + j / 8], j % 8) { fastmap[j] := true; }
      j := j - 1;
    }
  }

  method MarkAll(fastmap: array<bool>)
    requires fastmap.Length == 256
    modifies fastmap
    ensures forall c: byte :: fastmap[c]
  {
    var j: int := 0;
    while j < 256
      invariant 0 <= j <= 256 && forall c: byte | c < j :: fastmap[c]
    {
      fastmap[j] := true;
      j := j + 1;
    }
  }

  method ClearFastmap(fastmap: array<bool>)
    requires fastmap.Length == 256
    modifies fastmap
    ensures Found(fastmap) == {}
  {
    var j: int := 0;
    while j < 256
      invariant 0 <= j <= 256 && forall c: byte | c < j :: !fastmap[c]
    {
      fastmap[j] := false;
      j := j + 1;
    }
  }

  lemma ReadNumber(buf: array<byte>, used: nat, k: nat)
    requires k + 1 < used <= buf.Length
    ensures NumAt(buf[..used], k) == Extract(buf[k], buf[k + 1])
  {
  }

  // ---------- One instruction ----------

  // The instruction at p leads to next, to the addresses in more, and to the end if `ends`; nowhere else.
  ghost predicate Followed(code: seq<byte>, p: nat, next: nat, more: seq<nat>, ends: bool) {
    && p < next <= |code| && Leads(code, p, next)
    && (ends ==> Leads(code, p, |code|))
    && (more == [] || (|more| == 1 && more[0] < |code| && Leads(code, p, more[0]) && Remembers(code, p, next, more[0])))
    && forall r: nat | Leads(code, p, r) :: r == next || r in more || (ends && r == |code|)
  }

  predicate Remembers(code: seq<byte>, p: nat, next: nat, later: nat) {
    Whole(code, p) && Pushing(code[p]) && next == p + Size(code, p) && later == Target(code, p) && next <= later
  }

  // What is remembered afterwards: one address more, or one less when it is the one gone to.
  predicate Restacked(stack: seq<nat>, stack': seq<nat>, next: nat, more: seq<nat>) {
    stack' == stack + more || (more == [] && stack == stack' + [next])
  }

  lemma PassesOn(code: seq<byte>, p: nat)
    requires Whole(code, p) && !Eating(code[p]) && !Pushing(code[p]) && !Jumping(code[p])
    ensures Followed(code, p, p + Size(code, p), [], false)
  {
  }

  lemma JumpsOn(code: seq<byte>, starts: set<nat>, p: nat)
    requires Flows(code, starts) && p in starts && Jumping(code[p])
    ensures p + 2 < |code| && 0 <= Target(code, p) <= |code|
    ensures NumAt(code, p + 1) > 0 ==> Followed(code, p, Target(code, p), [], false)
    ensures NumAt(code, p + 1) <= 0 ==> Target(code, p) < |code|
    ensures NumAt(code, p + 1) <= 0 ==>
              var q := Target(code, p);
              if Pushing(code[q])
              then q + 2 < |code| && 0 <= Target(code, q) && Followed(code, p, Target(code, q), [], false)
              else Followed(code, p, q, [], false)
  {
    hide NumAt, InMap;
    StartLocal(code, starts, p);
    if Redirects(code, p) {
      RedirectsBack(code, starts, p);
      LoopHead(code, starts, p);
    } else {
      NotBack(code, starts, p);
    }
    if Loops(code, starts, p) { LoopIsBack(code, starts, p); }
  }

  lemma LoopIsBack(code: seq<byte>, starts: set<nat>, p: nat)
    requires Flows(code, starts) && p in starts && Whole(code, p) && Jumping(code[p]) && Loops(code, starts, p)
    ensures Redirects(code, p)
  {
    hide NumAt;
    LoopHead(code, starts, p);
  }

  lemma PushesOn(code: seq<byte>, starts: set<nat>, p: nat)
    requires Flows(code, starts) && p in starts && Pushing(code[p])
    ensures Whole(code, p) && 0 <= Target(code, p) <= |code|
    ensures code[p] == SUCCEED_N && NumAt(code, p + 3) != 0 ==> Followed(code, p, p + 5, [], false)
    ensures code[p] == SUCCEED_N ==> NumAt(code, p + 3) == 0 ==> PushFollowed(code, p, p + 5)
    ensures code[p] == ON_FAILURE_JUMP ==> PushFollowed(code, p, p + 3)
  {
    hide NumAt, InMap;
    StartLocal(code, starts, p);
  }

  ghost predicate PushFollowed(code: seq<byte>, p: nat, next: nat)
    requires p + 2 < |code|
  {
    0 <= Target(code, p)
    && if Target(code, p) < |code| then Followed(code, p, next, [Target(code, p)], false)
       else Followed(code, p, next, [], true)
  }

  // The cases that match a byte. Once an empty match is known to be possible, `.` ends the exploration.
  method MarkFirst(buf: array<byte>, used: nat, p: nat, fastmap: array<bool>, canBeNull: bool) returns (quit: bool)
    requires used <= buf.Length && Whole(buf[..used], p) && Eating(buf[p]) && fastmap.Length == 256
    modifies fastmap
    ensures quit ==> canBeNull
    ensures !quit ==> forall c: byte :: fastmap[c] <==> old(fastmap[c]) || Accepts(buf[..used], p, c)
  {
    hide InMap;
    quit := false;
    if buf[p] == EXACTN {
      fastmap[buf[p + 2]] := true;
    } else if buf[p] == ANYCHAR {
      MarkAll(fastmap);
      quit := canBeNull;
    } else {
      assert buf[p + 1..p + 2 + buf[p + 1]] == buf[..used][p + 1..p + 2 + buf[p + 1]];
      if buf[p] == CHARSET { MarkCharset(buf, p + 1, fastmap); } else { MarkCharsetNot(buf, p + 1, fastmap); }
    }
  }

  // PUSH_PATTERN_OP.
  method PushPatternOp(stack: seq<nat>, size: nat, p: nat) returns (ok: bool, stack': seq<nat>, size': nat)
    requires |stack| <= size && StackSize(size)
    ensures ok ==> stack' == stack + [p] && |stack'| <= size' && StackSize(size')
    ensures !ok ==> |stack| >= 2560
  {
    ok, stack', size' := true, stack, size;
    if |stack| == size {
      if size > MAX_REMEMBERED { return false, stack, size; }
      size' := size * 2;
    }
    stack' := stack + [p];
  }

  // The cases that consume nothing. False: no room to remember an address.
  method PassOver(buf: array<byte>, used: nat, p: nat, stack: seq<nat>, size: nat, canBeNull: bool,
                  ghost starts: set<nat>)
    returns (ok: bool, p': nat, stack': seq<nat>, size': nat, canBeNull': bool, ghost more: seq<nat>, ghost ends: bool)
    requires used <= buf.Length && Flows(buf[..used], starts) && p in starts && p < used && !Eating(buf[p])
    requires |stack| <= size && StackSize(size)
    ensures ok ==> Followed(buf[..used], p, p', more, ends) && Restacked(stack, stack', p', more)
    ensures ok ==> |stack'| <= size' && StackSize(size') && canBeNull' == (canBeNull || ends)
    ensures !ok ==> |stack| >= 2560
  {
    hide NumAt, Flows, InMap, Followed, PushFollowed, Extract, Leads;
    ghost var code := buf[..used];
    assert Whole(code, p) by { StartLocal(code, starts, p); }
    ok, stack', size', canBeNull', more, ends := true, stack, size, canBeNull, [], false;
    if Jumping(buf[p]) {
      JumpsOn(code, starts, p);
      ReadNumber(buf, used, p + 1);
      var j := Extract(buf[p + 1], buf[p + 2]);
      p' := p + 3 + j;
      if j > 0 { return; }
      if !Pushing(buf[p']) { return; }
      // The body of a loop has been gone through: on where its head would go on failure.
      ReadNumber(buf, used, p' + 1);
      p' := p' + 3 + Extract(buf[p' + 1], buf[p' + 2]);
      if stack != [] && stack[|stack| - 1] == p' { stack' := stack[..|stack| - 1]; }
    } else if Pushing(buf[p]) {
      PushesOn(code, starts, p);
      p' := p + 3;
      if buf[p] == SUCCEED_N {
        p' := p + 5;
        ReadNumber(buf, used, p + 3);
        if Extract(buf[p + 3], buf[p + 4]) != 0 { return; }
      }
      assert PushFollowed(code, p, p');
      ReadNumber(buf, used, p + 1);
      var later: nat := p + 3 + Extract(buf[p + 1], buf[p + 2]);
      PushParts(code, p, p');
      if later < used {
        more := [later];
        ok, stack', size' := PushPatternOp(stack, size, later);
      } else {
        canBeNull', ends := true, true;
      }
    } else {
      PassesOn(code, p);
      p' := p + (if buf[p] == SET_NUMBER_AT then 5 else if Marking(buf[p]) then 3 else 1);
    }
  }

  lemma PushParts(code: seq<byte>, p: nat, next: nat)
    requires p + 2 < |code| && PushFollowed(code, p, next)
    ensures 0 <= Target(code, p)
    ensures if Target(code, p) < |code|
            then Followed(code, p, next, [Target(code, p)], false)
            else Followed(code, p, next, [], true)
  {
  }

  // ---------- Steps of the exploration ----------

  ghost function Dealt(code: seq<byte>, f: Front, p: nat, next: nat, more: seq<nat>, ends: bool): Front {
    Front(f.seen + {next} + (set r | r in more) + (if ends then {|code|} else {}),
          f.done + {p} + (if ends then {|code|} else {}))
  }

  lemma KeptFollowed(code: seq<byte>, starts: set<nat>, f: Front, found: set<byte>, canBeNull: bool,
                      p: nat, next: nat, more: seq<nat>, ends: bool)
    requires Flows(code, starts) && Kept(code, starts, f, found, canBeNull)
    requires p in f.seen && p in starts && p < |code| && !Eating(code[p]) && Followed(code, p, next, more, ends)
    ensures Kept(code, starts, Dealt(code, f, p, next, more, ends), found, canBeNull || ends)
  {
    hide Leads, ExploredFirst, Explored, Flows;
    var f' := Dealt(code, f, p, next, more, ends);
    forall v: nat | v in f'.seen ensures (v == |code| || v in starts) && Explored(code, v) {
      if v !in f.seen {
        ExploredOn(code, p, v);
        ExploredIsStart(code, starts, p, v);
      }
    }
    forall v: nat, r: nat | v in f'.done && Leads(code, v, r) ensures r in f'.seen {
      if v !in f.done && v != p { EndLeadsNowhere(code, r); }
    }
    forall c: byte ensures !Accepts(code, p, c) && !Accepts(code, |code|, c) { }
  }

  lemma EndLeadsNowhere(code: seq<byte>, r: nat)
    ensures !Leads(code, |code|, r)
  {
  }

  lemma WaitingFollowed(code: seq<byte>, starts: set<nat>, f: Front, p: nat, stack: seq<nat>, stack': seq<nat>,
                        next: nat, more: seq<nat>, ends: bool)
    requires Flows(code, starts) && Waiting(code, starts, f, p, stack, true) && p in starts && p < |code|
    requires Followed(code, p, next, more, ends) && Restacked(stack, stack', next, more)
    ensures Waiting(code, starts, Dealt(code, f, p, next, more, ends), next, stack', true)
  {
    hide Leads, Flows;
    if more != [] {
      ExploredIsStart(code, starts, p, more[0]);
    } else {
      assert forall v | v in stack :: v in stack' || v == next;
      assert stack' <= stack;
    }
  }

  lemma RoomFollowed(code: seq<byte>, starts: set<nat>, p: nat, stack: seq<nat>, stack': seq<nat>, need: nat -> nat,
                       next: nat, more: seq<nat>, ends: bool)
    requires NeedBounded(code, starts, need) && RoomFor(code, p, stack, need) && p in starts && p < |code|
    requires Whole(code, p)
    requires Followed(code, p, next, more, ends) && Restacked(stack, stack', next, more)
    ensures RoomFor(code, next, stack', need)
  {
    hide Leads, Whole, Size;
    assert next < |code| ==> BoundAt(code, p, next, need);
    if more != [] { assert BoundAt(code, p, more[0], need); } else { assert stack' <= stack; }
  }

  lemma WorkFollowed(code: seq<byte>, p: nat, stack: seq<nat>, stack': seq<nat>, next: nat, more: seq<nat>, ends: bool)
    requires Followed(code, p, next, more, ends) && Restacked(stack, stack', next, more)
    ensures Work(|code|, next, stack') < Work(|code|, p, stack)
  {
    hide Leads, Work;
    assert stack + [] == stack;
    if more != [] {
      assert more == [more[0]] && stack' == stack + [more[0]];
      WorkPush(|code|, p, next, more[0], stack);
    } else {
      WorkForward(|code|, p, next, stack);
      if stack != stack' {
        assert stack[..|stack| - 1] == stack' && stack[|stack| - 1] == next;
        WorkLess(|code|, next, stack);
      }
    }
  }

  lemma WorkLess(used: nat, p: nat, stack: seq<nat>)
    requires stack != []
    ensures Work(used, p, stack[..|stack| - 1]) < Work(used, p, stack)
  {
  }

  lemma KeptFirst(code: seq<byte>, starts: set<nat>, f: Front, found: set<byte>, found': set<byte>, canBeNull: bool,
                  p: nat)
    requires Kept(code, starts, f, found, canBeNull) && p in f.seen && p < |code| && Eating(code[p])
    requires forall c: byte :: c in found' <==> c in found || Accepts(code, p, c)
    ensures Kept(code, starts, Front(f.seen, f.done + {p}), found', canBeNull)
  {
    hide Explored, Accepts;
    forall c: byte | c in found' ensures ExploredFirst(code, c) {
      if c !in found { assert Explored(code, p) && Accepts(code, p, c); }
    }
    forall r: nat ensures !Leads(code, p, r) { }
  }

  // The end of a path: an empty match is possible if the path has consumed nothing.
  lemma KeptEnd(code: seq<byte>, starts: set<nat>, f: Front, found: set<byte>, canBeNull: bool)
    requires Kept(code, starts, f, found, canBeNull) && |code| in f.seen
    ensures Kept(code, starts, Front(f.seen, f.done + {|code|}), found, true)
  {
    hide Explored, ExploredFirst;
    forall r: nat ensures !Leads(code, |code|, r) { EndLeadsNowhere(code, r); }
    forall c: byte ensures !Accepts(code, |code|, c) { }
  }

  lemma {:induction false} AllSeen(code: seq<byte>, starts: set<nat>, f: Front, found: set<byte>, canBeNull: bool,
                                   n: nat, r: nat)
    requires Kept(code, starts, f, found, canBeNull) && f.seen <= f.done && ExploredIn(code, n, r)
    ensures r in f.done
    decreases n
  {
    hide Leads, Explored, ExploredFirst, Accepts;
    if n > 0 {
      var p: nat :| ExploredIn(code, n - 1, p) && Leads(code, p, r);
      AllSeen(code, starts, f, found, canBeNull, n - 1, p);
    }
  }

  lemma KeptDone(code: seq<byte>, starts: set<nat>, f: Front, found: set<byte>, canBeNull: bool)
    requires Kept(code, starts, f, found, canBeNull) && f.seen <= f.done
    ensures canBeNull <==> Explored(code, |code|)
    ensures forall c: byte :: c in found <==> ExploredFirst(code, c)
  {
    hide Leads, Accepts, ExploredIn;
    if n: nat :| ExploredIn(code, n, |code|) { AllSeen(code, starts, f, found, canBeNull, n, |code|); }
    forall c: byte | ExploredFirst(code, c) ensures c in found {
      var p: nat :| Explored(code, p) && Accepts(code, p, c);
      var n: nat :| ExploredIn(code, n, p);
      AllSeen(code, starts, f, found, canBeNull, n, p);
    }
  }

  // ---------- re_compile_fastmap ----------

  // Where the exploration stands.
  ghost predicate Exploring(code: seq<byte>, starts: set<nat>, need: nat -> nat, f: Front, found: set<byte>,
                            canBeNull: bool,
                            p: nat, pathNull: bool, stack: seq<nat>) {
    Kept(code, starts, f, found, canBeNull) && Waiting(code, starts, f, p, stack, pathNull)
    && RoomFor(code, p, stack, need)
  }

  lemma ExploringStarts(code: seq<byte>, starts: set<nat>, need: nat -> nat)
    ensures Flows(code, starts) ==> Exploring(code, starts, need, Front({0}, {}), {}, false, 0, true, [])
  {
    ExploredStart(code);
  }

  lemma ExploringAt(code: seq<byte>, starts: set<nat>, need: nat -> nat, f: Front, found: set<byte>, canBeNull: bool,
                    p: nat, pathNull: bool, stack: seq<nat>)
    requires Exploring(code, starts, need, f, found, canBeNull, p, pathNull, stack)
    ensures p <= |code| && (p < |code| ==> pathNull && p in starts && p in f.seen)
    ensures forall k: nat | k < |stack| :: stack[k] in starts
    ensures canBeNull ==> Explored(code, |code|)
  {
  }

  lemma ExploringPop(code: seq<byte>, starts: set<nat>, need: nat -> nat, f: Front, found: set<byte>, canBeNull: bool,
                     pathNull: bool, stack: seq<nat>)
    returns (f': Front)
    requires Flows(code, starts) && stack != []
    requires Exploring(code, starts, need, f, found, canBeNull, |code|, pathNull, stack)
    ensures var n := |stack| - 1;
            stack[n] < |code|
            && Exploring(code, starts, need, f', found, canBeNull || pathNull, stack[n], true, stack[..n])
  {
    var n := |stack| - 1;
    StartLocal(code, starts, stack[n]);
    f' := f;
    if pathNull {
      KeptEnd(code, starts, f, found, canBeNull);
      f' := Front(f.seen, f.done + {|code|});
    }
    assert forall v | v in stack :: v == stack[n] || v in stack[..n];
  }

  lemma ExploringDone(code: seq<byte>, starts: set<nat>, need: nat -> nat, f: Front, found: set<byte>, canBeNull: bool,
                      pathNull: bool)
    requires Exploring(code, starts, need, f, found, canBeNull, |code|, pathNull, [])
    ensures canBeNull || pathNull <==> Explored(code, |code|)
    ensures forall c: byte :: c in found <==> ExploredFirst(code, c)
  {
    var f' := f;
    if pathNull {
      KeptEnd(code, starts, f, found, canBeNull);
      f' := Front(f.seen, f.done + {|code|});
    }
    KeptDone(code, starts, f', found, canBeNull || pathNull);
  }

  lemma ExploringNext(code: seq<byte>, starts: set<nat>, need: nat -> nat, f: Front, found: set<byte>, canBeNull: bool,
                      p: nat, stack: seq<nat>, stack': seq<nat>, next: nat, more: seq<nat>, ends: bool)
    requires Flows(code, starts) && NeedBounded(code, starts, need) && p < |code| && !Eating(code[p])
    requires Exploring(code, starts, need, f, found, canBeNull, p, true, stack)
    requires Followed(code, p, next, more, ends) && Restacked(stack, stack', next, more)
    ensures Exploring(code, starts, need, Dealt(code, f, p, next, more, ends), found, canBeNull || ends,
                      next, true, stack')
  {
    ExploringAt(code, starts, need, f, found, canBeNull, p, true, stack);
    StartLocal(code, starts, p);
    hide Leads, Kept, Waiting, RoomFor, Flows, NeedBounded, Local, Whole, Dealt, Followed;
    KeptFollowed(code, starts, f, found, canBeNull, p, next, more, ends);
    WaitingFollowed(code, starts, f, p, stack, stack', next, more, ends);
    RoomFollowed(code, starts, p, stack, stack', need, next, more, ends);
  }

  // The path has met an instruction that consumes a byte.
  lemma ExploringFirst(code: seq<byte>, starts: set<nat>, need: nat -> nat, f: Front, found: set<byte>,
                       found': set<byte>,
                       canBeNull: bool, p: nat, stack: seq<nat>)
    requires Exploring(code, starts, need, f, found, canBeNull, p, true, stack) && p < |code| && Eating(code[p])
    requires forall c: byte :: c in found' <==> c in found || Accepts(code, p, c)
    ensures Exploring(code, starts, need, Front(f.seen, f.done + {p}), found', canBeNull, |code|, false, stack)
  {
    KeptFirst(code, starts, f, found, found', canBeNull, p);
  }

  // There is too little room only if more addresses are needed than there can be.
  lemma NeedsMore(code: seq<byte>, starts: set<nat>, need: nat -> nat, f: Front, found: set<byte>, canBeNull: bool,
                  p: nat, stack: seq<nat>)
    requires Flows(code, starts) && NeedBounded(code, starts, need) && p < |code| && |stack| >= 2560
    requires Exploring(code, starts, need, f, found, canBeNull, p, true, stack)
    ensures need(0) >= 2560
  {
  }

  /** re_compile_fastmap. The exploration ends on any code whose jumps satisfy Local, loops and all; what it
      reports is exactly what can be explored. It fails only when there is no room left for an address to
      come back to, which takes 2560 of them. */
  method ReCompileFastmap(buf: array<byte>, used: nat, fastmap: array<bool>, ghost starts: set<nat>,
                          ghost need: nat -> nat)
    returns (ok: bool, canBeNull: bool)
    requires used <= buf.Length && fastmap.Length == 256
    requires Flows(buf[..used], starts) && NeedBounded(buf[..used], starts, need)
    modifies fastmap
    ensures !ok ==> need(0) >= 2560
    ensures ok ==> (canBeNull <==> Explored(buf[..used], used))
    ensures ok && !canBeNull ==> forall c: byte :: fastmap[c] <==> ExploredFirst(buf[..used], c)
  {
    hide Exploring, Work, Found, Flows, NeedBounded, Explored, ExploredFirst, Accepts, Followed, Restacked, Dealt;
    ghost var code := buf[..used];
    ClearFastmap(fastmap);
    ExploringStarts(code, starts, need);
    var p: nat, stack: seq<nat>, size: nat, pathNull := 0, [], INIT_FAILURE_ALLOC, true;
    ghost var f := Front({0}, {});
    ok, canBeNull := true, false;
    while p != used || stack != []
      invariant buf[..used] == code && Exploring(code, starts, need, f, Found(fastmap), canBeNull, p, pathNull, stack)
      invariant ok && p <= used && |stack| <= size && StackSize(size)
      decreases Work(used, p, stack)
    {
      if p == used {
        f := ExploringPop(code, starts, need, f, Found(fastmap), canBeNull, pathNull, stack);
        WorkPop(used, stack);
        canBeNull, pathNull := canBeNull || pathNull, true;
        p, stack := stack[|stack| - 1], stack[..|stack| - 1];
      }
      ExploringAt(code, starts, need, f, Found(fastmap), canBeNull, p, pathNull, stack);
      if Eating(buf[p]) {
        WholeAt(code, starts, p);
        ghost var found := Found(fastmap);
        FoundIs(fastmap);
        var quit := MarkFirst(buf, used, p, fastmap, canBeNull);
        if quit { return; }
        FoundIs(fastmap);
        ExploringFirst(code, starts, need, f, found, Found(fastmap), canBeNull, p, stack);
        WorkForward(used, p, used, stack);
        f := Front(f.seen, f.done + {p});
        p, pathNull := used, false;
      } else {
        ghost var more, ends;
        var p', stack', canBeNull';
        ok, p', stack', size, canBeNull', more, ends := PassOver(buf, used, p, stack, size, canBeNull, starts);
        if !ok {
          NeedsMore(code, starts, need, f, Found(fastmap), canBeNull, p, stack);
          return;
        }
        ExploringNext(code, starts, need, f, Found(fastmap), canBeNull, p, stack, stack', p', more, ends);
        WorkFollowed(code, p, stack, stack', p', more, ends);
        f := Dealt(code, f, p, p', more, ends);
        p, stack, canBeNull := p', stack', canBeNull';
        ExploringAt(code, starts, need, f, Found(fastmap), canBeNull, p, true, stack);
      }
    }
    ExploringDone(code, starts, need, f, Found(fastmap), canBeNull, pathNull);
    FoundIs(fastmap);
    canBeNull := canBeNull || pathNull;
  }

  lemma WholeAt(code: seq<byte>, starts: set<nat>, p: nat)
    requires Flows(code, starts) && p in starts
    ensures Whole(code, p)
  {
    StartLocal(code, starts, p);
  }

  lemma FoundIs(fastmap: array<bool>)
    requires fastmap.Length == 256
    ensures forall c: byte :: c in Found(fastmap) <==> fastmap[c]
  {
  }

  // Any code: three bytes for every address remembered.
  ghost function Third(size: nat): nat -> nat { (p: nat) => if p <= size then (size - p) / 3 else 0 }

  lemma ThirdBounds(code: seq<byte>, starts: set<nat>)
    requires Flows(code, starts)
    ensures NeedBounded(code, starts, Third(|code|))
  {
    hide NumAt;
    forall p: nat, r: nat | p in starts && Leads(code, p, r) && r < |code| ensures BoundAt(code, p, r, Third(|code|)) {
      ForwardByThree(code, starts, p, r);
    }
  }

  lemma ForwardByThree(code: seq<byte>, starts: set<nat>, p: nat, r: nat)
    requires Flows(code, starts) && p in starts && Leads(code, p, r)
    ensures r > p && Whole(code, p) && (Pushing(code[p]) && r == p + Size(code, p) ==> r >= p + 3)
  {
    hide NumAt;
    StartLocal(code, starts, p);
    if Redirects(code, p) {
      RedirectsBack(code, starts, p);
      LoopHead(code, starts, p);
    } else if Jumping(code[p]) {
      NotBack(code, starts, p);
    }
  }
}
