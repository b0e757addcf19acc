/**
 Patterns with groups, step by step: which tree the steps of a pattern amount to, that it reads back as these
 steps, and how its groups are numbered.
 */
module RegexGrowth {
  import opened Bytes
  import opened RegexAst
  import opened RegexCode
  import opened RegexTree

  const MAX_REGNUM: nat := 255

  // What the cases of the switch do, one step each: a literal run, a single character or an anchor; a
  // quantifier, with the literal it is taken for if there is nothing to repeat; `\|`, `\(` and `\)`.
  datatype Step = Put(piece: Piece) | Quantify(q: Quant, literal: byte) | Bar | Open | Close

  ghost predicate WfStep(s: Step) {
    match s
    case Put(p) => !p.Rep? && WfPiece(p)
    case Quantify(q, _) => q.Interval? ==> q.lo <= q.hi <= RE_DUP_MAX
    case _ => true
  }

  // ---------- The tree of a pattern ----------

  // An open group, or the whole pattern: the alternatives finished, and the one under way: what stands before
  // the last thing that can be repeated, and that thing with the anchors behind it, if there is any.
  datatype Level = Level(reg: byte, done: seq<Node>, init: Node, last: Node, some: bool)

  // The levels from the outermost, and the number of groups opened.
  datatype Growth = Growth(levels: seq<Level>, count: nat)

  function Alts(done: seq<Node>, cur: Node): Node { if done == [] then cur else Either(done[0], Alts(done[1..], cur)) }

  function LevelTree(l: Level): Node { Alts(l.done, Cat(l.init, l.last)) }

  function GrowPut(l: Level, p: Piece): Level {
    if !p.Anchor? then l.(init := Cat(l.init, l.last), last := Leaf(p), some := true)
    else if l.some then l.(last := Cat(l.last, Leaf(p)))
    else l.(init := Cat(l.init, Leaf(p)))
  }

  function GrowMany(l: Level, q: Quant, literal: byte): Level {
    if l.some then l.(last := Many(l.last, q)) else GrowPut(l, Exact([literal]))
  }

  function GrowBar(l: Level): Level { Level(l.reg, l.done + [Cat(l.init, l.last)], Empty, Empty, false) }

  function GrowGroup(outer: Level, l: Level, inner: byte): Level {
    outer.(init := Cat(outer.init, outer.last), last := Group(l.reg, inner, LevelTree(l)), some := true)
  }

  function WithTop(levels: seq<Level>, l: Level): seq<Level>
    requires levels != []
  {
    levels[..|levels| - 1] + [l]
  }

  // Groups opened minus groups closed never falls below 0, and no more groups are opened than can be numbered.
  predicate Growable(g: Growth, s: Step) {
    g.levels != []
    && (s.Open? ==> g.count < MAX_REGNUM)
    && (s.Close? ==> |g.levels| > 1 && g.levels[|g.levels| - 1].reg <= g.count <= MAX_REGNUM)
  }

  function Grow(g: Growth, s: Step): (r: Growth)
    requires Growable(g, s)
    ensures r.levels != []
  {
    var (n, l) := (|g.levels| - 1, g.levels[|g.levels| - 1]);
    match s
    case Put(p) => g.(levels := WithTop(g.levels, GrowPut(l, p)))
    case Quantify(q, literal) => g.(levels := WithTop(g.levels, GrowMany(l, q, literal)))
    case Bar => g.(levels := WithTop(g.levels, GrowBar(l)))
    case Open => Growth(g.levels + [Level(g.count + 1, [], Empty, Empty, false)], g.count + 1)
    case Close => g.(levels := g.levels[..n - 1] + [GrowGroup(g.levels[n - 1], l, g.count - l.reg)])
  }

  // ---------- A whole pattern ----------

  function Seed(): Growth { Growth([Level(0, [], Empty, Empty, false)], 0) }

  lemma Growing(g: Growth, s: Step)
    requires g.levels != [] && !s.Open? && !s.Close?
    ensures Growable(g, s)
  {
  }

  // A `\)` too many changes nothing: the pattern is rejected there.
  function After(steps: seq<Step>, n: nat): (g: Growth)
    requires n <= |steps|
    ensures g.levels != []
  {
    if n == 0 then Seed()
    else if Growable(After(steps, n - 1), steps[n - 1]) then Grow(After(steps, n - 1), steps[n - 1])
    else After(steps, n - 1)
  }

  // The tree of the pattern.
  function StepsTree(steps: seq<Step>): Node { LevelTree(After(steps, |steps|).levels[0]) }

  function Opens(steps: seq<Step>, n: nat): nat
    requires n <= |steps|
  {
    if n == 0 then 0 else Opens(steps, n - 1) + (if steps[n - 1].Open? then 1 else 0)
  }

  function Closes(steps: seq<Step>, n: nat): nat
    requires n <= |steps|
  {
    if n == 0 then 0 else Closes(steps, n - 1) + (if steps[n - 1].Close? then 1 else 0)
  }

  predicate Balanced(steps: seq<Step>) {
    (forall n | 0 <= n <= |steps| :: Closes(steps, n) <= Opens(steps, n))
    && Closes(steps, |steps|) == Opens(steps, |steps|)
  }

  lemma {:induction false} OpensGrow(steps: seq<Step>, m: nat, n: nat)
    requires m <= n <= |steps|
    ensures Opens(steps, m) <= Opens(steps, n)
    decreases n
  {
    if m < n { OpensGrow(steps, m, n - 1); }
  }

  // ---------- The numbers of the groups ----------

  function Groups(n: Node): nat {
    match n
    case Empty => 0
    case Leaf(_) => 0
    case Cat(x, y) => Groups(x) + Groups(y)
    case Either(x, y) => Groups(x) + Groups(y)
    case Group(_, _, body) => 1 + Groups(body)
    case Many(body, _) => Groups(body)
  }

  // Groups are numbered from `first` in the order they are opened, and know how many there are inside them.
  predicate Numbered(n: Node, first: nat) {
    match n
    case Empty => true
    case Leaf(_) => true
    case Cat(x, y) => Numbered(x, first) && Numbered(y, first + Groups(x))
    case Either(x, y) => Numbered(x, first) && Numbered(y, first + Groups(x))
    case Group(reg, inner, body) => reg == first && inner == Groups(body) && Numbered(body, first + 1)
    case Many(body, _) => Numbered(body, first)
  }

  function GroupsAll(ns: seq<Node>): nat { if ns == [] then 0 else Groups(ns[0]) + GroupsAll(ns[1..]) }

  predicate NumberedAll(ns: seq<Node>, first: nat) {
    ns != [] ==> Numbered(ns[0], first) && NumberedAll(ns[1..], first + Groups(ns[0]))
  }

  function LevelGroups(l: Level): nat { GroupsAll(l.done) + Groups(l.init) + Groups(l.last) }

  predicate LevelNumbered(l: Level) {
    var first := l.reg + 1 + GroupsAll(l.done);
    NumberedAll(l.done, l.reg + 1) && Numbered(l.init, first) && Numbered(l.last, first + Groups(l.init))
  }

  // Every level is numbered up to where the next one begins.
  predicate AllNumbered(g: Growth) {
    && g.levels != [] && g.levels[0].reg == 0
    && forall j | 0 <= j < |g.levels| :: LevelNumbered(g.levels[j]) && NextIs(g, j)
  }

  predicate NextIs(g: Growth, j: nat)
    requires j < |g.levels|
  {
    var next: int := if j + 1 < |g.levels| then g.levels[j + 1].reg else g.count + 1;
    g.levels[j].reg + LevelGroups(g.levels[j]) + 1 == next
  }

  lemma {:induction false} NumberedSnoc(ns: seq<Node>, n: Node, first: nat)
    requires NumberedAll(ns, first) && Numbered(n, first + GroupsAll(ns))
    ensures NumberedAll(ns + [n], first) && GroupsAll(ns + [n]) == GroupsAll(ns) + Groups(n)
    decreases |ns|
  {
    if ns == [] {
      assert ns + [n] == [n];
      assert [n][1..] == [];
    } else {
      assert (ns + [n])[1..] == ns[1..] + [n];
      NumberedSnoc(ns[1..], n, first + Groups(ns[0]));
    }
  }

  lemma {:induction false} AltsNumbered(done: seq<Node>, cur: Node, first: nat)
    requires NumberedAll(done, first) && Numbered(cur, first + GroupsAll(done))
    ensures Numbered(Alts(done, cur), first) && Groups(Alts(done, cur)) == GroupsAll(done) + Groups(cur)
    decreases |done|
  {
    if done != [] { AltsNumbered(done[1..], cur, first + Groups(done[0])); }
  }

  // The innermost level is changed without a group being added.
  lemma TopNumbered(g: Growth, l: Level)
    requires AllNumbered(g) && LevelNumbered(l)
    requires var top := g.levels[|g.levels| - 1]; l.reg == top.reg && LevelGroups(l) == LevelGroups(top)
    ensures AllNumbered(g.(levels := WithTop(g.levels, l)))
  {
    hide LevelNumbered, LevelGroups;
    var g' := g.(levels := WithTop(g.levels, l));
    forall j | 0 <= j < |g'.levels| ensures LevelNumbered(g'.levels[j]) && NextIs(g', j) {
      assert LevelNumbered(g.levels[j]) && NextIs(g, j);
    }
  }

  lemma OpenNumbered(g: Growth)
    requires AllNumbered(g) && g.count < MAX_REGNUM
    ensures AllNumbered(Grow(g, Open))
  {
    hide LevelNumbered, LevelGroups;
    var (g', n) := (Grow(g, Open), |g.levels|);
    EmptyNumbered(g.count + 1);
    forall j | 0 <= j < |g'.levels| ensures LevelNumbered(g'.levels[j]) && NextIs(g', j) {
      if j < n { assert LevelNumbered(g.levels[j]) && NextIs(g, j); }
    }
  }

  lemma EmptyNumbered(reg: byte)
    ensures var l := Level(reg, [], Empty, Empty, false); LevelNumbered(l) && LevelGroups(l) == 0
  {
  }

  lemma CloseNumbered(g: Growth)
    requires AllNumbered(g) && Growable(g, Close)
    ensures AllNumbered(Grow(g, Close))
  {
    hide LevelNumbered, LevelGroups, GrowGroup;
    var (g', n) := (Grow(g, Close), |g.levels| - 1);
    var l := g.levels[n];
    assert LevelNumbered(l) && NextIs(g, n) && LevelNumbered(g.levels[n - 1]) && NextIs(g, n - 1);
    GroupNumbered(g.levels[n - 1], l, g.count - l.reg);
    forall j | 0 <= j < |g'.levels| ensures LevelNumbered(g'.levels[j]) && NextIs(g', j) {
      assert LevelNumbered(g.levels[j]) && NextIs(g, j);
    }
  }

  lemma GrowNumbered(g: Growth, s: Step)
    requires AllNumbered(g) && Growable(g, s)
    ensures AllNumbered(Grow(g, s))
  {
    hide LevelNumbered, LevelGroups, GrowPut, GrowMany, GrowBar;
    var l := g.levels[|g.levels| - 1];
    assert LevelNumbered(l);
    match s {
      case Put(p) =>
        PutNumbered(l, p);
        TopNumbered(g, GrowPut(l, p));
      case Quantify(q, literal) =>
        ManyNumbered(l, q, literal);
        TopNumbered(g, GrowMany(l, q, literal));
      case Bar =>
        BarNumbered(l);
        TopNumbered(g, GrowBar(l));
      case Open => OpenNumbered(g);
      case Close => CloseNumbered(g);
    }
  }

  lemma NothingNumbered()
    ensures GroupsAll([]) == 0 && Groups(Empty) == 0
    ensures (forall first: nat :: NumberedAll([], first) && Numbered(Empty, first))
  {
  }

  lemma CatGroups(x: Node, y: Node, first: nat)
    requires Numbered(x, first) && Numbered(y, first + Groups(x))
    ensures Numbered(Cat(x, y), first) && Groups(Cat(x, y)) == Groups(x) + Groups(y)
  {
  }

  lemma LeafGroups(p: Piece)
    ensures Groups(Leaf(p)) == 0 && forall first: nat :: Numbered(Leaf(p), first)
  {
  }

  lemma PutNumbered(l: Level, p: Piece)
    requires LevelNumbered(l)
    ensures LevelNumbered(GrowPut(l, p)) && LevelGroups(GrowPut(l, p)) == LevelGroups(l) && GrowPut(l, p).reg == l.reg
  {
    hide NumberedAll, GroupsAll, Numbered, Groups;
    var first := l.reg + 1 + GroupsAll(l.done);
    LeafGroups(p);
    if p.Anchor? && l.some {
      CatGroups(l.last, Leaf(p), first + Groups(l.init));
    } else if p.Anchor? {
      CatGroups(l.init, Leaf(p), first);
    } else {
      CatGroups(l.init, l.last, first);
    }
  }

  lemma ManyNumbered(l: Level, q: Quant, literal: byte)
    requires LevelNumbered(l)
    ensures LevelNumbered(GrowMany(l, q, literal)) && LevelGroups(GrowMany(l, q, literal)) == LevelGroups(l)
    ensures GrowMany(l, q, literal).reg == l.reg
  {
  }

  lemma BarNumbered(l: Level)
    requires LevelNumbered(l)
    ensures LevelNumbered(GrowBar(l)) && LevelGroups(GrowBar(l)) == LevelGroups(l) && GrowBar(l).reg == l.reg
  {
    NumberedSnoc(l.done, Cat(l.init, l.last), l.reg + 1);
  }

  lemma GroupNumbered(outer: Level, l: Level, inner: byte)
    requires LevelNumbered(outer) && LevelNumbered(l) && inner == LevelGroups(l)
    requires outer.reg + LevelGroups(outer) + 1 == l.reg
    ensures LevelNumbered(GrowGroup(outer, l, inner))
    ensures LevelGroups(GrowGroup(outer, l, inner)) == LevelGroups(outer) + 1 + inner
    ensures GrowGroup(outer, l, inner).reg == outer.reg
  {
    hide NumberedAll, GroupsAll, Alts;
    var (cur, outer') := (Cat(l.init, l.last), GrowGroup(outer, l, inner));
    assert Numbered(cur, l.reg + 1 + GroupsAll(l.done)) && Groups(cur) == Groups(l.init) + Groups(l.last);
    AltsNumbered(l.done, cur, l.reg + 1);
    assert Numbered(outer'.last, l.reg) && Groups(outer'.last) == 1 + inner;
    assert Numbered(outer'.init, outer.reg + 1 + GroupsAll(outer.done));
    assert Groups(outer'.init) == Groups(outer.init) + Groups(outer.last);
  }

  lemma {:induction false} AfterNumbered(steps: seq<Step>, n: nat)
    requires n <= |steps|
    ensures AllNumbered(After(steps, n))
    decreases n
  {
    if n == 0 {
      NothingNumbered();
    } else {
      AfterNumbered(steps, n - 1);
      if Growable(After(steps, n - 1), steps[n - 1]) { GrowNumbered(After(steps, n - 1), steps[n - 1]); }
    }
  }

  /** The groups of a pattern are numbered from 1 in the order of their opening parentheses, and both markers
      of each carry the number of groups inside it. */
  lemma PatternNumbered(steps: seq<Step>)
    ensures Numbered(StepsTree(steps), 1)
  {
    AfterNumbered(steps, |steps|);
    var l := After(steps, |steps|).levels[0];
    assert LevelNumbered(l);
    AltsNumbered(l.done, Cat(l.init, l.last), 1);
  }

  // ---------- The tree read back ----------

  // The steps a tree stands for, in order. What a quantifier would have meant with nothing to repeat is not kept.
  function Read(n: Node): seq<Step> {
    match n
    case Empty => []
    case Leaf(p) => [Put(p)]
    case Cat(x, y) => Read(x) + Read(y)
    case Either(x, y) => Read(x) + [Bar] + Read(y)
    case Group(_, _, body) => [Open] + Read(body) + [Close]
    case Many(body, q) => Read(body) + [Quantify(q, 0)]
  }

  // After n steps something stands in the alternative at hand that could be repeated.
  predicate Repeatable(steps: seq<Step>, n: nat)
    requires n <= |steps|
  {
    n > 0
    && match steps[n - 1]
       case Put(p) => !p.Anchor? || Repeatable(steps, n - 1)
       case Quantify(_, _) => true
       case Close => true
       case Bar => false
       case Open => false
  }

  // Step n as it reads back: a quantifier with nothing to repeat is its literal.
  function Plain(steps: seq<Step>, n: nat): Step
    requires n < |steps|
  {
    var s := steps[n];
    if !s.Quantify? then s else if Repeatable(steps, n) then s.(literal := 0) else Put(Exact([s.literal]))
  }

  function Plainly(steps: seq<Step>, n: nat): (r: seq<Step>)
    requires n <= |steps|
    ensures |r| == n
  {
    if n == 0 then [] else Plainly(steps, n - 1) + [Plain(steps, n - 1)]
  }

  // A single thing that can be repeated, with anchors behind it.
  predicate Single(n: Node) {
    match n
    case Leaf(p) => !p.Anchor?
    case Cat(x, y) => Single(x) && y.Leaf? && y.piece.Anchor?
    case Group(_, _, _) => true
    case Many(_, _) => true
    case _ => false
  }

  // Quantifiers apply to single things.
  predicate Tight(n: Node) {
    match n
    case Cat(x, y) => Tight(x) && Tight(y)
    case Either(x, y) => Tight(x) && Tight(y)
    case Group(_, _, body) => Tight(body)
    case Many(body, _) => Single(body) && Tight(body)
    case _ => true
  }

  function ReadDone(done: seq<Node>): seq<Step> {
    if done == [] then [] else Read(done[0]) + [Bar] + ReadDone(done[1..])
  }

  function ReadLevel(l: Level): seq<Step> { ReadDone(l.done) + Read(l.init) + Read(l.last) }

  // The first n levels, each with the parenthesis behind it.
  function ReadBefore(levels: seq<Level>, n: nat): seq<Step>
    requires n <= |levels|
  {
    if n == 0 then [] else ReadBefore(levels, n - 1) + (ReadLevel(levels[n - 1]) + [Open])
  }

  function ReadLevels(levels: seq<Level>): seq<Step>
    requires levels != []
  {
    ReadBefore(levels, |levels| - 1) + ReadLevel(levels[|levels| - 1])
  }

  lemma {:induction false} BeforeSame(levels: seq<Level>, levels': seq<Level>, n: nat)
    requires n <= |levels| && n <= |levels'| && forall k | 0 <= k < n :: levels[k] == levels'[k]
    ensures ReadBefore(levels, n) == ReadBefore(levels', n)
    decreases n
  {
    if n > 0 { BeforeSame(levels, levels', n - 1); }
  }

  predicate TightLevel(l: Level) {
    (forall k | 0 <= k < |l.done| :: Tight(l.done[k])) && Tight(l.init) && Tight(l.last)
    && (if l.some then Single(l.last) else l.last == Empty)
  }

  predicate TightLevels(levels: seq<Level>) { forall k | 0 <= k < |levels| :: TightLevel(levels[k]) }

  lemma {:induction false} ReadDoneSnoc(done: seq<Node>, n: Node)
    ensures ReadDone(done + [n]) == ReadDone(done) + (Read(n) + [Bar])
    decreases |done|
  {
    if done == [] {
      assert done + [n] == [n] && [n][1..] == [];
    } else {
      assert (done + [n])[1..] == done[1..] + [n];
      ReadDoneSnoc(done[1..], n);
    }
  }

  lemma {:induction false} AltsRead(done: seq<Node>, cur: Node)
    ensures Read(Alts(done, cur)) == ReadDone(done) + Read(cur)
    ensures (forall k | 0 <= k < |done| :: Tight(done[k])) && Tight(cur) ==> Tight(Alts(done, cur))
    decreases |done|
  {
    if done == [] {
      assert [] + Read(cur) == Read(cur);
    } else {
      AltsRead(done[1..], cur);
    }
  }

  // What a step adds to the level it happens in.
  lemma LevelRead(l: Level, s: Step)
    requires TightLevel(l) && (s.Put? || s.Quantify? || s.Bar?)
    ensures var l' := match s
                      case Put(p) => GrowPut(l, p)
                      case Quantify(q, c) => GrowMany(l, q, c)
                      case _ => GrowBar(l);
            && TightLevel(l')
            && ReadLevel(l') == ReadLevel(l) + [if !s.Quantify? then s else if l.some then s.(literal := 0)
                                                else Put(Exact([s.literal]))]
            && (l'.some <==> if s.Put? then !s.piece.Anchor? || l.some else s.Quantify?)
  {
    hide ReadDone;
    var done := ReadDone(l.done);
    match s
    case Put(p) => PutRead(l, p);
    case Quantify(q, c) =>
      if l.some {
        assert done + Read(l.init) + (Read(l.last) + [Quantify(q, 0)])
               == done + Read(l.init) + Read(l.last) + [Quantify(q, 0)];
      } else {
        PutRead(l, Exact([c]));
      }
    case Bar =>
      var cur := Cat(l.init, l.last);
      ReadDoneSnoc(l.done, cur);
      assert done + (Read(l.init) + Read(l.last) + [Bar]) + [] + [] == done + Read(l.init) + Read(l.last) + [Bar];
  }

  lemma PutRead(l: Level, p: Piece)
    requires TightLevel(l)
    ensures TightLevel(GrowPut(l, p)) && ReadLevel(GrowPut(l, p)) == ReadLevel(l) + [Put(p)]
    ensures GrowPut(l, p).some <==> !p.Anchor? || l.some
  {
    hide ReadDone;
    var (l', init, last) := (GrowPut(l, p), Read(l.init), Read(l.last));
    if !p.Anchor? {
      assert Read(l'.init) == init + last && Read(l'.last) == [Put(p)];
    } else if l.some {
      assert Read(l'.last) == last + [Put(p)];
    } else {
      assert Read(l'.init) == init + [Put(p)] && last == [];
    }
    assert Tight(l'.init) && Tight(l'.last) && (l'.some ==> Single(l'.last));
    Around(ReadDone(l.done), init, last, [Put(p)]);
  }

  lemma Around(a: seq<Step>, b: seq<Step>, c: seq<Step>, d: seq<Step>)
    ensures a + (b + c) + d == a + b + c + d == a + b + (c + d)
    ensures c == [] ==> a + (b + d) + c == a + b + c + d
  {
  }

  lemma GroupRead(outer: Level, l: Level, inner: byte)
    requires TightLevel(outer) && TightLevel(l)
    ensures TightLevel(GrowGroup(outer, l, inner)) && GrowGroup(outer, l, inner).some
    ensures ReadLevel(GrowGroup(outer, l, inner)) == ReadLevel(outer) + ([Open] + ReadLevel(l) + [Close])
  {
    hide ReadDone, Alts;
    LevelTreeRead(l);
    var outer' := GrowGroup(outer, l, inner);
    assert Read(outer'.init) == Read(outer.init) + Read(outer.last);
    assert Read(outer'.last) == [Open] + Read(LevelTree(l)) + [Close];
    Around(ReadDone(outer.done), Read(outer.init), Read(outer.last), [Open] + ReadLevel(l) + [Close]);
  }

  lemma LevelTreeRead(l: Level)
    requires TightLevel(l)
    ensures Read(LevelTree(l)) == ReadLevel(l) && Tight(LevelTree(l))
  {
    hide ReadDone, Alts;
    AltsRead(l.done, Cat(l.init, l.last));
    Around(ReadDone(l.done), Read(l.init), Read(l.last), []);
    assert Read(LevelTree(l)) == ReadDone(l.done) + (Read(l.init) + Read(l.last)) + [];
  }

  // After n steps, none of which closes more than has been opened.
  ghost predicate Reads(steps: seq<Step>, n: nat)
    requires n <= |steps|
  {
    var g := After(steps, n);
    && TightLevels(g.levels) && ReadLevels(g.levels) == Plainly(steps, n)
    && |g.levels| == Opens(steps, n) - Closes(steps, n) + 1 && g.count == Opens(steps, n)
    && (g.levels[|g.levels| - 1].some <==> Repeatable(steps, n))
  }

  lemma {:induction false} StepsRead(steps: seq<Step>, n: nat)
    requires n <= |steps| && Opens(steps, n) <= MAX_REGNUM
    requires forall k | 0 <= k <= n :: Closes(steps, k) <= Opens(steps, k)
    ensures Reads(steps, n)
    decreases n
  {
    hide Reads;
    if n == 0 {
      NothingRead(steps);
    } else {
      OpensGrow(steps, n - 1, n);
      StepsRead(steps, n - 1);
      OneStepRead(steps, n - 1);
    }
  }

  lemma NothingRead(steps: seq<Step>)
    ensures Reads(steps, 0)
  {
    NewRead(0);
    assert ReadBefore(Seed().levels, 0) == [];
  }

  lemma OneStepRead(steps: seq<Step>, n: nat)
    requires n < |steps| && Reads(steps, n) && Opens(steps, n + 1) <= MAX_REGNUM
    requires Closes(steps, n + 1) <= Opens(steps, n + 1)
    ensures Reads(steps, n + 1)
  {
    hide ReadBefore, ReadLevels, ReadLevel, TightLevel, GrowPut, GrowMany, GrowBar, GrowGroup, LevelNumbered;
    hide After, Opens, Closes, Plainly, Repeatable;
    var (g, s) := (After(steps, n), steps[n]);
    var top := |g.levels| - 1;
    CanGrow(steps, n);
    StepIs(steps, n);
    if s.Open? {
      OpenRead(g.levels, g.count + 1);
    } else if s.Close? {
      CloseRead(g.levels, g.count - g.levels[top].reg);
    } else {
      assert TightLevel(g.levels[top]);
      LevelRead(g.levels[top], s);
      TopRead(g.levels, Grow(g, s).levels[top], [Plain(steps, n)]);
    }
  }

  lemma StepIs(steps: seq<Step>, n: nat)
    requires n < |steps| && Growable(After(steps, n), steps[n])
    ensures var s := steps[n];
            && After(steps, n + 1) == Grow(After(steps, n), s)
            && Opens(steps, n + 1) == Opens(steps, n) + (if s.Open? then 1 else 0)
            && Closes(steps, n + 1) == Closes(steps, n) + (if s.Close? then 1 else 0)
            && Plainly(steps, n + 1) == Plainly(steps, n) + [Plain(steps, n)]
            && (Repeatable(steps, n + 1) <==>
                if s.Put? then !s.piece.Anchor? || Repeatable(steps, n) else s.Quantify? || s.Close?)
  {
    hide Grow, Growable;
  }

  lemma CanGrow(steps: seq<Step>, n: nat)
    requires n < |steps| && Reads(steps, n) && Opens(steps, n + 1) <= MAX_REGNUM
    requires Closes(steps, n + 1) <= Opens(steps, n + 1)
    ensures Growable(After(steps, n), steps[n])
  {
    hide After, TightLevels, ReadLevels, Plainly, Repeatable, LevelNumbered;
    var g := After(steps, n);
    AfterNumbered(steps, n);
    if steps[n].Close? { assert NextIs(g, |g.levels| - 1); }
  }

  // Only the innermost level changes.
  lemma TopRead(levels: seq<Level>, l: Level, more: seq<Step>)
    requires levels != [] && ReadLevel(l) == ReadLevel(levels[|levels| - 1]) + more
    ensures ReadLevels(WithTop(levels, l)) == ReadLevels(levels) + more
  {
    hide ReadLevel, ReadBefore;
    var n := |levels| - 1;
    BeforeSame(levels, WithTop(levels, l), n);
    Around(ReadBefore(levels, n), [], ReadLevel(levels[n]), more);
    assert ReadBefore(levels, n) + [] == ReadBefore(levels, n);
  }

  lemma OpenRead(levels: seq<Level>, reg: byte)
    requires levels != [] && TightLevels(levels)
    ensures var l := Level(reg, [], Empty, Empty, false);
            TightLevels(levels + [l]) && ReadLevels(levels + [l]) == ReadLevels(levels) + [Open]
  {
    hide ReadLevel, TightLevel, ReadBefore;
    var (l, n) := (Level(reg, [], Empty, Empty, false), |levels| - 1);
    NewRead(reg);
    BeforeIs(levels + [l], n + 1);
    BeforeSame(levels, levels + [l], n);
    assert ReadBefore(levels + [l], n + 1) == ReadBefore(levels, n) + (ReadLevel(levels[n]) + [Open]);
    Around(ReadBefore(levels, n), [], ReadLevel(levels[n]), [Open]);
    assert ReadBefore(levels, n) + [] == ReadBefore(levels, n);
  }

  lemma NewRead(reg: byte)
    ensures var l := Level(reg, [], Empty, Empty, false); ReadLevel(l) == [] && TightLevel(l)
  {
  }

  lemma CloseRead(levels: seq<Level>, inner: byte)
    requires |levels| > 1 && TightLevels(levels)
    ensures var n := |levels| - 1;
            var closed := levels[..n - 1] + [GrowGroup(levels[n - 1], levels[n], inner)];
            TightLevels(closed) && ReadLevels(closed) == ReadLevels(levels) + [Close] && closed[n - 1].some
  {
    hide ReadLevel, GrowGroup, TightLevel, ReadBefore;
    var n := |levels| - 1;
    var closed := levels[..n - 1] + [GrowGroup(levels[n - 1], levels[n], inner)];
    var (x, y) := (ReadLevel(levels[n - 1]), ReadLevel(levels[n]));
    assert TightLevel(levels[n - 1]) && TightLevel(levels[n]);
    GroupRead(levels[n - 1], levels[n], inner);
    BeforeSame(levels, closed, n - 1);
    BeforeIs(levels, n);
    assert ReadBefore(levels, n - 1) + (x + ([Open] + y + [Close]))
           == ReadBefore(levels, n - 1) + (x + [Open]) + y + [Close];
  }

  lemma BeforeIs(levels: seq<Level>, n: nat)
    requires 0 < n <= |levels|
    ensures ReadBefore(levels, n) == ReadBefore(levels, n - 1) + (ReadLevel(levels[n - 1]) + [Open])
  {
  }

  /** The tree of a pattern with balanced parentheses reads back as the pattern, step by step, a quantifier with
      nothing to repeat being its literal; and what a quantifier applies to is the one thing before it. */
  lemma TreeReadsBack(steps: seq<Step>)
    requires Balanced(steps) && Opens(steps, |steps|) <= MAX_REGNUM
    ensures Read(StepsTree(steps)) == Plainly(steps, |steps|) && Tight(StepsTree(steps))
  {
    hide Plainly, ReadLevel, TightLevel;
    StepsRead(steps, |steps|);
    var l := After(steps, |steps|).levels[0];
    assert TightLevel(l);
    LevelTreeRead(l);
    assert [] + ReadLevel(l) == ReadLevel(l);
  }
}
