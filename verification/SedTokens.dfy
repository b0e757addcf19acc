/**
 What a sed script does, said on the script as it is written: which commands are executed, in which order, a block
 as part of its `{` and up to its `}`. Compiling a script to linked vectors and following the links in one loop
 does just that.
 */
module SedTokens {
  import opened SedBlocks

  // ---------- Blocks in the text ----------

  // Behind the command at p, a block being part of its `{`.
  function Skip(tokens: seq<Token>, p: nat): (q: nat)
    requires p < |tokens|
    ensures p < q <= |tokens|
    decreases |tokens| - p, 0
  {
    if tokens[p].LeftBrace? then SkipBlock(tokens, p + 1) else p + 1
  }

  // Behind the `}` of the block at hand.
  function SkipBlock(tokens: seq<Token>, p: nat): (q: nat)
    requires p <= |tokens|
    ensures p <= q <= |tokens|
    decreases |tokens| - p, 1
  {
    if p == |tokens| then p
    else if tokens[p].RightBrace? then p + 1
    else SkipBlock(tokens, Skip(tokens, p))
  }

  // Where the block that token n stands in begins, 0 for the program itself.
  function BlockStart(tokens: seq<Token>, n: nat): (b: nat)
    requires n <= |tokens|
    ensures b <= n
  {
    if n == 0 then 0
    else if tokens[n - 1].LeftBrace? then n
    else if !tokens[n - 1].RightBrace? then BlockStart(tokens, n - 1)
    else
      var inner := BlockStart(tokens, n - 1);
      if inner == 0 then 0 else BlockStart(tokens, inner - 1)
  }

  // ---------- Executing the text ----------

  // Time is up, the cycle is over, the block is left through its `}`, or for the label at p in a block around it.
  datatype Exit = OutOfTime | CycleOver | Left(next: nat) | Jumping(p: nat)

  // The tokens executed, and the answers not used up.
  datatype TokenRun = TokenRun(trace: seq<nat>, rest: seq<bool>, exit: Exit)

  function After(trace: seq<nat>, run: TokenRun): TokenRun { TokenRun(trace + run.trace, run.rest, run.exit) }

  // The block that begins at b, from token p on. Every command met takes one answer, whether it is addressed.
  ghost function RunBlock(tokens: seq<Token>, b: nat, p: nat, answers: seq<bool>): (run: TokenRun)
    ensures |run.rest| <= |answers| && (run.exit.Left? || run.exit.Jumping? ==> |run.rest| < |answers|)
    decreases |answers|, 0
  {
    if p >= |tokens| then TokenRun([], answers, CycleOver)
    else if answers == [] then TokenRun([], [], OutOfTime)
    else
      var (rest, marks) := (answers[1..], Marks(tokens, |tokens|));
      if tokens[p].RightBrace? then TokenRun([], rest, Left(p + 1))
      else if !answers[0] then RunBlock(tokens, b, Skip(tokens, p), rest)
      else
        match tokens[p]
        case Plain(_) => After([p], RunBlock(tokens, b, p + 1, rest))
        case Colon(_) => After([p], RunBlock(tokens, b, p + 1, rest))
        case Ending(_) => TokenRun([p], rest, CycleOver)
        case LeftBrace => After([p], GoOn(tokens, b, RunBlock(tokens, p + 1, p + 1, rest)))
        case Jump(name) =>
          if name !in marks then TokenRun([p], rest, CycleOver)
          else if BlockStart(tokens, marks[name]) == b then After([p], RunBlock(tokens, b, marks[name], rest))
          else TokenRun([p], rest, Jumping(marks[name]))
        case RightBrace => TokenRun([], rest, Left(p + 1))
  }

  // After a block inside the one that begins at b.
  ghost function GoOn(tokens: seq<Token>, b: nat, inner: TokenRun): (run: TokenRun)
    ensures |run.rest| <= |inner.rest|
    decreases |inner.rest|, 1
  {
    match inner.exit
    case Left(next) => After(inner.trace, RunBlock(tokens, b, next, inner.rest))
    case Jumping(p) =>
      if p <= |tokens| && BlockStart(tokens, p) == b then After(inner.trace, RunBlock(tokens, b, p, inner.rest))
      else inner
    case _ => inner
  }

  // The tokens executed in a cycle.
  ghost function Executed(tokens: seq<Token>, answers: seq<bool>): seq<nat> { RunBlock(tokens, 0, 0, answers).trace }

  // Jumps lead to labels of the same block or of the program itself.
  ghost predicate ScopedTokens(tokens: seq<Token>) {
    var marks := Marks(tokens, |tokens|);
    forall p: nat | p < |tokens| && tokens[p].Jump? && tokens[p].name in marks ::
      var m := marks[tokens[p].name];
      BlockStart(tokens, m) == BlockStart(tokens, p) || BlockStart(tokens, m) == 0
  }

  // ---------- Where commands stand in the text ----------

  ghost predicate Compiled(tokens: seq<Token>, script: Script, origin: Origin, labels: Labels) {
    && WellNested(script) && TextOf(script, 0) == tokens && Placed(script, origin, 0, 0)
    && labels.Keys == Marks(tokens, |tokens|).Keys
    && forall name | name in labels :: PlaceIs(origin, labels[name], Marks(tokens, |tokens|)[name])
  }

  // The token behind the first i commands of vector v.
  ghost function At(script: Script, origin: Origin, v: nat, i: nat): nat
    requires Placed(script, origin, 0, 0) && v < |script| && i <= |script[v].cmds|
  {
    (if v == 0 || script[v].cmds == [] then 0 else origin[v][0]) + |Unparse(script, v, i)|
  }

  lemma AtIs(script: Script, origin: Origin, v: nat, i: nat)
    requires WellNested(script) && Placed(script, origin, 0, 0) && v < |script| && i < |script[v].cmds|
    ensures origin[v][i] == At(script, origin, v, i)
    ensures var cmd := script[v].cmds[i];
            && At(script, origin, v, i + 1)
               == At(script, origin, v, i) + 1
                  + (if cmd.Open? && cmd.sub < |script| then |TextOf(script, cmd.sub)| else 0)
            && (cmd.Open? ==> v < cmd.sub < |script| && At(script, origin, cmd.sub, 0) == At(script, origin, v, i) + 1)
            && (cmd.Close? ==> v > 0 && i + 1 == |script[v].cmds|)
  {
    hide Unparse;
    assert Linked(script, v);
    UnparseSnoc(script, v, i);
    var cmd := script[v].cmds[i];
    if cmd.Open? {
      assert Inside(script, origin, v, i, cmd.sub);
      NothingSpelled(script, cmd.sub);
    }
  }

  lemma {:induction false} UnparsePrefix(script: Script, v: nat, n: nat, m: nat)
    requires v < |script| && n <= m <= |script[v].cmds|
    ensures |Unparse(script, v, n)| <= |Unparse(script, v, m)|
    ensures Unparse(script, v, m)[..|Unparse(script, v, n)|] == Unparse(script, v, n)
    decreases m
  {
    hide Unparse;
    if n < m {
      UnparsePrefix(script, v, n, m - 1);
      UnparseSnoc(script, v, m - 1);
      var (x, y) := (Unparse(script, v, m - 1), Unparse(script, v, m));
      assert y[..|x|] == x;
      assert y[..|Unparse(script, v, n)|] == y[..|x|][..|Unparse(script, v, n)|];
    }
  }

  // The text of vector v stands where its first command comes from.
  ghost predicate Stands(tokens: seq<Token>, script: Script, origin: Origin, v: nat)
    requires Placed(script, origin, 0, 0) && v < |script|
  {
    var (b, text) := (At(script, origin, v, 0), TextOf(script, v));
    b + |text| <= |tokens| && tokens[b..b + |text|] == text
  }

  lemma {:induction false} TextStands(tokens: seq<Token>, script: Script, origin: Origin, labels: Labels, v: nat)
    requires Compiled(tokens, script, origin, labels) && v < |script|
    ensures Stands(tokens, script, origin, v)
    decreases v
  {
    hide Unparse;
    NothingSpelled(script, v);
    if v == 0 {
      assert tokens[0..0 + |tokens|] == tokens;
    } else {
      assert Entered(script, v);
      var (w, i) := (script[v].returnV, script[v].returnI);
      TextStands(tokens, script, origin, labels, w);
      StandsInside(tokens, script, origin, v, w, i);
    }
  }

  lemma StandsInside(tokens: seq<Token>, script: Script, origin: Origin, v: nat, w: nat, i: nat)
    requires WellNested(script) && Placed(script, origin, 0, 0) && v < |script| && w < v && i < |script[w].cmds|
    requires script[w].cmds[i] == Open(v) && Stands(tokens, script, origin, w)
    ensures Stands(tokens, script, origin, v)
  {
    hide Unparse;
    AtIs(script, origin, w, i);
    UnparseSnoc(script, w, i);
    UnparsePrefix(script, w, i + 1, |script[w].cmds|);
    NothingSpelled(script, w);
    var (b, text) := (At(script, origin, w, 0), TextOf(script, w));
    var (front, sub) := (Unparse(script, w, i), TextOf(script, v));
    assert text[..|front| + 1 + |sub|] == front + [LeftBrace] + sub;
    assert text[|front| + 1..|front| + 1 + |sub|] == text[..|front| + 1 + |sub|][|front| + 1..] == sub;
    assert tokens[b + |front| + 1..b + |front| + 1 + |sub|]
           == tokens[b..b + |text|][|front| + 1..|front| + 1 + |sub|];
  }

  // Each command stands there as its token.
  lemma TokenStands(tokens: seq<Token>, script: Script, origin: Origin, labels: Labels, v: nat, i: nat)
    requires Compiled(tokens, script, origin, labels) && v < |script| && i < |script[v].cmds|
    ensures At(script, origin, v, i) < |tokens| && tokens[At(script, origin, v, i)] == TokenOf(script[v].cmds[i])
  {
    hide Unparse, Compiled;
    TextStands(tokens, script, origin, labels, v);
    Linking(tokens, script, origin, labels);
    AtIs(script, origin, v, i);
    UnparseSnoc(script, v, i);
    UnparsePrefix(script, v, i + 1, |script[v].cmds|);
    NothingSpelled(script, v);
    var (b, text, front) := (At(script, origin, v, 0), TextOf(script, v), Unparse(script, v, i));
    assert text[|front|] == text[..|Unparse(script, v, i + 1)|][|front|] == TokenOf(script[v].cmds[i]);
    assert tokens[b..b + |text|][|front|] == tokens[b + |front|];
  }

  lemma Linking(tokens: seq<Token>, script: Script, origin: Origin, labels: Labels)
    requires Compiled(tokens, script, origin, labels)
    ensures WellNested(script) && Placed(script, origin, 0, 0)
  {
  }

  // ---------- The structure of the text is that of the vectors ----------

  lemma {:induction false} SkipStands(tokens: seq<Token>, script: Script, origin: Origin, labels: Labels, v: nat,
                                      i: nat)
    requires Compiled(tokens, script, origin, labels) && v < |script| && i < |script[v].cmds|
    ensures At(script, origin, v, i) < |tokens| && At(script, origin, v, i + 1) <= |tokens|
    ensures !script[v].cmds[i].Close? ==> Skip(tokens, At(script, origin, v, i)) == At(script, origin, v, i + 1)
    ensures v > 0 ==> SkipBlock(tokens, At(script, origin, v, i)) == At(script, origin, v, |script[v].cmds|)
    decreases |script| - v, |script[v].cmds| - i
  {
    hide Unparse, Compiled;
    TokenStands(tokens, script, origin, labels, v, i);
    Linking(tokens, script, origin, labels);
    AtIs(script, origin, v, i);
    var cmd := script[v].cmds[i];
    EndStands(tokens, script, origin, labels, v, i + 1);
    if cmd.Open? {
      assert Closed(script, cmd.sub);
      SkipStands(tokens, script, origin, labels, cmd.sub, 0);
      AtEnd(script, origin, cmd.sub);
    }
    if v > 0 {
      assert Closed(script, v) && Linked(script, v);
      if i + 1 < |script[v].cmds| { SkipStands(tokens, script, origin, labels, v, i + 1); }
    }
  }

  lemma EndStands(tokens: seq<Token>, script: Script, origin: Origin, labels: Labels, v: nat, n: nat)
    requires Compiled(tokens, script, origin, labels) && v < |script| && n <= |script[v].cmds|
    ensures At(script, origin, v, n) <= |tokens|
  {
    hide Unparse;
    TextStands(tokens, script, origin, labels, v);
    UnparsePrefix(script, v, n, |script[v].cmds|);
    NothingSpelled(script, v);
  }

  lemma AtEnd(script: Script, origin: Origin, v: nat)
    requires Placed(script, origin, 0, 0) && v < |script|
    ensures At(script, origin, v, |script[v].cmds|) == At(script, origin, v, 0) + |TextOf(script, v)|
    ensures v == 0 ==> At(script, origin, v, 0) == 0
  {
    NothingSpelled(script, v);
  }

  lemma {:induction false} BlockStands(tokens: seq<Token>, script: Script, origin: Origin, labels: Labels, v: nat,
                                       i: nat)
    requires Compiled(tokens, script, origin, labels) && v < |script| && i < |script[v].cmds|
    ensures At(script, origin, v, i) <= |tokens|
    ensures BlockStart(tokens, At(script, origin, v, i)) == At(script, origin, v, 0)
    ensures At(script, origin, v, 0) == 0 <==> v == 0
    decreases |script| - v, i
  {
    hide Unparse, Compiled;
    EndStands(tokens, script, origin, labels, v, i);
    Linking(tokens, script, origin, labels);
    AtEnd(script, origin, v);
    if v > 0 { BlockBegins(tokens, script, origin, labels, v); }
    if i > 0 {
      TokenStands(tokens, script, origin, labels, v, i - 1);
      AtIs(script, origin, v, i - 1);
      BlockStands(tokens, script, origin, labels, v, i - 1);
      var cmd := script[v].cmds[i - 1];
      if cmd.Open? {
        var last := |script[cmd.sub].cmds| - 1;
        assert Closed(script, cmd.sub);
        BlockStands(tokens, script, origin, labels, cmd.sub, last);
        TokenStands(tokens, script, origin, labels, cmd.sub, last);
        AtIs(script, origin, cmd.sub, last);
        AtEnd(script, origin, cmd.sub);
      }
    }
  }

  // A block begins behind its `{`.
  lemma BlockBegins(tokens: seq<Token>, script: Script, origin: Origin, labels: Labels, v: nat)
    requires Compiled(tokens, script, origin, labels) && 0 < v < |script|
    ensures var (w, i, b) := (script[v].returnV, script[v].returnI, At(script, origin, v, 0));
            && w < v && i < |script[w].cmds| && script[w].cmds[i] == Open(v)
            && At(script, origin, w, i) + 1 == b <= |tokens| && tokens[b - 1] == LeftBrace && BlockStart(tokens, b) == b
  {
    hide Unparse, Compiled;
    Linking(tokens, script, origin, labels);
    assert Entered(script, v);
    var (w, i) := (script[v].returnV, script[v].returnI);
    TokenStands(tokens, script, origin, labels, w, i);
    AtIs(script, origin, w, i);
  }

  // Blocks that begin at the same token are the same.
  lemma {:induction false} BlocksDiffer(tokens: seq<Token>, script: Script, origin: Origin, labels: Labels, v: nat,
                                        w: nat)
    requires Compiled(tokens, script, origin, labels) && v < |script| && w < |script|
    requires script[v].cmds != [] && script[w].cmds != []
    requires At(script, origin, v, 0) == At(script, origin, w, 0)
    ensures v == w
    decreases v
  {
    hide Unparse, Compiled;
    Linking(tokens, script, origin, labels);
    BlockStands(tokens, script, origin, labels, v, 0);
    BlockStands(tokens, script, origin, labels, w, 0);
    if v > 0 && w > 0 {
      BlockBegins(tokens, script, origin, labels, v);
      BlockBegins(tokens, script, origin, labels, w);
      var (x, i, y, j) := (script[v].returnV, script[v].returnI, script[w].returnV, script[w].returnI);
      BlockStands(tokens, script, origin, labels, x, i);
      BlockStands(tokens, script, origin, labels, y, j);
      BlocksDiffer(tokens, script, origin, labels, x, y);
      PlacesDiffer(script, origin, x, i, j);
      PlacesDiffer(script, origin, x, j, i);
    }
  }

  lemma PlacesDiffer(script: Script, origin: Origin, v: nat, i: nat, j: nat)
    requires Placed(script, origin, 0, 0) && v < |script| && i < |script[v].cmds| && j < |script[v].cmds|
    ensures i < j ==> At(script, origin, v, i) < At(script, origin, v, j)
  {
    hide Unparse;
    if i < j {
      UnparseSnoc(script, v, i);
      UnparsePrefix(script, v, i + 1, j);
    }
  }

  // ---------- Both ways of executing agree ----------

  lemma LabelStands(tokens: seq<Token>, script: Script, origin: Origin, labels: Labels, name: string)
    requires Compiled(tokens, script, origin, labels) && name in labels
    ensures name in Marks(tokens, |tokens|)
    ensures var (place, m) := (labels[name], Marks(tokens, |tokens|)[name]);
            && place.v < |script| && place.i < |script[place.v].cmds| && m == At(script, origin, place.v, place.i)
            && BlockStart(tokens, m) == At(script, origin, place.v, 0)
  {
    hide Unparse;
    var place := labels[name];
    assert PlaceIs(origin, place, Marks(tokens, |tokens|)[name]);
    AtIs(script, origin, place.v, place.i);
    BlockStands(tokens, script, origin, labels, place.v, place.i);
  }

  lemma ScopedAlike(tokens: seq<Token>, script: Script, origin: Origin, labels: Labels)
    requires Compiled(tokens, script, origin, labels) && ScopedTokens(tokens) && AllLabelled(tokens)
    ensures Scoped(script, labels)
  {
    hide Unparse, Compiled, Marks, BlockStart;
    Linking(tokens, script, origin, labels);
    forall v: nat, k: nat | v < |script| && k < |script[v].cmds| && script[v].cmds[k].Branch?
      ensures var name := script[v].cmds[k].name;
              (name != "" ==> name in labels) && (name in labels ==> InScope(script, v, labels[name]))
    {
      var (name, p) := (script[v].cmds[k].name, At(script, origin, v, k));
      TokenStands(tokens, script, origin, labels, v, k);
      assert tokens[p] == Jump(name) && Jump(name) in tokens;
      NamesAre(tokens, |tokens|, name);
      assert tokens[..|tokens|] == tokens;
      LabelKeys(tokens, script, origin, labels);
      if name in labels {
        LabelStands(tokens, script, origin, labels, name);
        BlockStands(tokens, script, origin, labels, v, k);
        var place := labels[name];
        BlockStands(tokens, script, origin, labels, place.v, place.i);
        if place.v != 0 { BlocksDiffer(tokens, script, origin, labels, place.v, v); }
      }
    }
  }

  lemma LabelKeys(tokens: seq<Token>, script: Script, origin: Origin, labels: Labels)
    requires Compiled(tokens, script, origin, labels)
    ensures labels.Keys == Marks(tokens, |tokens|).Keys
  {
  }

  // A run of block v and a run of its text: the same commands, the same way out.
  ghost predicate Alike(script: Script, origin: Origin, v: nat, run: Run, text: TokenRun)
    requires Placed(script, origin, 0, 0) && v < |script|
  {
    && |run.trace| == |text.trace| && text.rest == run.rest
    && (forall k | 0 <= k < |run.trace| :: PlaceIs(origin, run.trace[k], text.trace[k]))
    && match run.out
       case Cut => text.exit == OutOfTime
       case Ended => text.exit == CycleOver
       case Returned => text.exit == Left(At(script, origin, v, |script[v].cmds|))
       case Jumped(i) => i < |script[0].cmds| && text.exit == Jumping(At(script, origin, 0, i))
  }

  lemma AlikeThen(script: Script, origin: Origin, v: nat, run: Run, text: TokenRun, here: Place, p: nat)
    requires Placed(script, origin, 0, 0) && v < |script| && Alike(script, origin, v, run, text)
    requires PlaceIs(origin, here, p)
    ensures Alike(script, origin, v, Then([here], run), After([p], text))
  {
  }

  lemma AlikeAfter(script: Script, origin: Origin, v: nat, w: nat, inner: Run, innerText: TokenRun, run: Run,
                   text: TokenRun)
    requires Placed(script, origin, 0, 0) && v < |script| && w < |script|
    requires Alike(script, origin, w, inner, innerText) && Alike(script, origin, v, run, text)
    ensures Alike(script, origin, v, Then(inner.trace, run), After(innerText.trace, text))
  {
  }

  lemma {:induction false} RunsAlike(tokens: seq<Token>, script: Script, origin: Origin, labels: Labels, v: nat, i: nat,
                                     answers: seq<bool>)
    requires Compiled(tokens, script, origin, labels) && Scoped(script, labels)
    requires v < |script| && i <= |script[v].cmds| && (v > 0 ==> i < |script[v].cmds|)
    ensures Alike(script, origin, v, Structured(script, labels, v, i, answers),
                  RunBlock(tokens, At(script, origin, v, 0), At(script, origin, v, i), answers))
    decreases |answers|, 1
  {
    hide Unparse, Compiled, Skip, BlockStart, Marks, Alike, Scoped, WellNested, Placed;
    Linking(tokens, script, origin, labels);
    var (b, p) := (At(script, origin, v, 0), At(script, origin, v, i));
    if i == |script[v].cmds| || answers == [] {
      RunsStop(tokens, script, origin, labels, v, i, answers);
      return;
    }
    var (cmd, rest, here) := (script[v].cmds[i], answers[1..], Place(v, i));
    TokenStands(tokens, script, origin, labels, v, i);
    SkipStands(tokens, script, origin, labels, v, i);
    AtIs(script, origin, v, i);
    PlaceStands(script, origin, v, i);
    if cmd.Act? || cmd.Label? || (!cmd.Close? && !answers[0]) {
      NotLast(script, v, i);
      RunsAlike(tokens, script, origin, labels, v, i + 1, rest);
      AlikeThen(script, origin, v, Structured(script, labels, v, i + 1, rest),
                RunBlock(tokens, b, At(script, origin, v, i + 1), rest), here, p);
    } else if cmd.Open? {
      BlockAlike(tokens, script, origin, labels, v, i, rest);
      AlikeThen(script, origin, v, AfterBlock(script, labels, v, i, Structured(script, labels, cmd.sub, 0, rest)),
                GoOn(tokens, b, RunBlock(tokens, p + 1, p + 1, rest)), here, p);
    } else if cmd.Branch? && cmd.name in labels && labels[cmd.name].v == v {
      LabelKeys(tokens, script, origin, labels);
      LabelStands(tokens, script, origin, labels, cmd.name);
      var target := labels[cmd.name];
      RunsAlike(tokens, script, origin, labels, v, target.i, rest);
      AlikeThen(script, origin, v, Structured(script, labels, v, target.i, rest),
                RunBlock(tokens, b, At(script, origin, v, target.i), rest), here, p);
    } else {
      RunsLeave(tokens, script, origin, labels, v, i, answers);
    }
  }

  lemma NotLast(script: Script, v: nat, i: nat)
    requires WellNested(script) && v < |script| && i < |script[v].cmds| && !script[v].cmds[i].Close?
    ensures v > 0 ==> i + 1 < |script[v].cmds|
  {
    if v > 0 { assert Closed(script, v); }
  }

  lemma PlaceStands(script: Script, origin: Origin, v: nat, i: nat)
    requires WellNested(script) && Placed(script, origin, 0, 0) && v < |script| && i < |script[v].cmds|
    ensures PlaceIs(origin, Place(v, i), At(script, origin, v, i))
  {
    AtIs(script, origin, v, i);
  }

  // The end of the program, or of the time.
  lemma RunsStop(tokens: seq<Token>, script: Script, origin: Origin, labels: Labels, v: nat, i: nat, answers: seq<bool>)
    requires Compiled(tokens, script, origin, labels) && Scoped(script, labels)
    requires v < |script| && i <= |script[v].cmds| && (v > 0 ==> i < |script[v].cmds|)
    requires i == |script[v].cmds| || answers == []
    ensures Alike(script, origin, v, Structured(script, labels, v, i, answers),
                  RunBlock(tokens, At(script, origin, v, 0), At(script, origin, v, i), answers))
  {
    hide Unparse;
    if i == |script[v].cmds| {
      AtEnd(script, origin, 0);
    } else {
      TokenStands(tokens, script, origin, labels, v, i);
    }
  }

  // Where a run of block v is over at once.
  lemma RunsLeave(tokens: seq<Token>, script: Script, origin: Origin, labels: Labels, v: nat, i: nat,
                  answers: seq<bool>)
    requires Compiled(tokens, script, origin, labels) && Scoped(script, labels)
    requires v < |script| && i < |script[v].cmds| && answers != []
    requires var cmd := script[v].cmds[i];
             cmd.Close?
             || (answers[0] && (cmd.Stop? || (cmd.Branch? && (cmd.name !in labels || labels[cmd.name].v != v))))
    ensures Alike(script, origin, v, Structured(script, labels, v, i, answers),
                  RunBlock(tokens, At(script, origin, v, 0), At(script, origin, v, i), answers))
  {
    hide Unparse, Skip, BlockStart, Marks, Compiled;
    Linking(tokens, script, origin, labels);
    TokenStands(tokens, script, origin, labels, v, i);
    AtIs(script, origin, v, i);
    PlaceStands(script, origin, v, i);
    LabelKeys(tokens, script, origin, labels);
    LinkedAt(script, labels, v, i);
    var cmd := script[v].cmds[i];
    if cmd.Branch? && cmd.name in labels {
      LabelStands(tokens, script, origin, labels, cmd.name);
      BlockStands(tokens, script, origin, labels, v, i);
      BlockStands(tokens, script, origin, labels, labels[cmd.name].v, labels[cmd.name].i);
    }
  }

  // Through a block, and on.
  lemma {:induction false} BlockAlike(tokens: seq<Token>, script: Script, origin: Origin, labels: Labels, v: nat,
                                      i: nat, rest: seq<bool>)
    requires Compiled(tokens, script, origin, labels) && Scoped(script, labels)
    requires v < |script| && i < |script[v].cmds| && script[v].cmds[i].Open?
    ensures v < script[v].cmds[i].sub < |script|
    ensures var p := At(script, origin, v, i);
            Alike(script, origin, v,
                  AfterBlock(script, labels, v, i, Structured(script, labels, script[v].cmds[i].sub, 0, rest)),
                  GoOn(tokens, At(script, origin, v, 0), RunBlock(tokens, p + 1, p + 1, rest)))
    decreases |rest|, 2
  {
    hide Unparse, Compiled, Skip, BlockStart, Marks, Scoped, WellNested, Placed, Structured, RunBlock;
    Linking(tokens, script, origin, labels);
    var (b, p, sub) := (At(script, origin, v, 0), At(script, origin, v, i), script[v].cmds[i].sub);
    AtIs(script, origin, v, i);
    SubClosed(script, sub);
    RunsAlike(tokens, script, origin, labels, sub, 0, rest);
    var (inner, text) := (Structured(script, labels, sub, 0, rest), RunBlock(tokens, p + 1, p + 1, rest));
    assert Alike(script, origin, sub, inner, text);
    if inner.out.Returned? {
      NotLast(script, v, i);
      AtEnd(script, origin, sub);
      RunsAlike(tokens, script, origin, labels, v, i + 1, inner.rest);
      AlikeAfter(script, origin, v, sub, inner, text, Structured(script, labels, v, i + 1, inner.rest),
                 RunBlock(tokens, b, At(script, origin, v, i + 1), inner.rest));
    } else if inner.out.Jumped? {
      BlockStands(tokens, script, origin, labels, 0, inner.out.i);
      BlockStands(tokens, script, origin, labels, v, i);
      if v == 0 {
        RunsAlike(tokens, script, origin, labels, 0, inner.out.i, inner.rest);
        AlikeAfter(script, origin, v, sub, inner, text, Structured(script, labels, 0, inner.out.i, inner.rest),
                   RunBlock(tokens, b, At(script, origin, 0, inner.out.i), inner.rest));
      }
    }
  }

  lemma SubClosed(script: Script, sub: nat)
    requires WellNested(script) && 0 < sub < |script|
    ensures script[sub].cmds != []
  {
    assert Closed(script, sub);
  }

  // ---------- Compiling and executing ----------

  predicate IsPlace(script: Script, place: Place) { place.v < |script| && place.i < |script[place.v].cmds| }

  lemma NotedCompiled(tokens: seq<Token>, script: Script, origin: Origin, labels: Labels, jumps: seq<string>)
    requires WellNested(script) && TextOf(script, 0) == tokens && Placed(script, origin, 0, 0)
    requires Noted(tokens, |tokens|, script, origin, labels, jumps)
    ensures Compiled(tokens, script, origin, labels)
  {
  }

  /** Structured execution of the vectors executes what execution of the text executes. */
  lemma ProgramAlike(tokens: seq<Token>, script: Script, origin: Origin, labels: Labels, answers: seq<bool>)
    requires Compiled(tokens, script, origin, labels) && Scoped(script, labels) && WellNested(script)
    ensures var (trace, executed) := (Structured(script, labels, 0, 0, answers).trace, Executed(tokens, answers));
            && |trace| == |executed|
            && forall k | 0 <= k < |trace| ::
                 IsPlace(script, trace[k]) && executed[k] < |tokens|
                 && tokens[executed[k]] == TokenOf(script[trace[k].v].cmds[trace[k].i])
  {
    hide Unparse, Compiled, Structured, RunBlock, Marks, Scoped;
    Linking(tokens, script, origin, labels);
    AtEnd(script, origin, 0);
    RunsAlike(tokens, script, origin, labels, 0, 0, answers);
    var (trace, executed) := (Structured(script, labels, 0, 0, answers).trace, Executed(tokens, answers));
    forall k | 0 <= k < |trace|
      ensures IsPlace(script, trace[k]) && executed[k] < |tokens|
              && tokens[executed[k]] == TokenOf(script[trace[k].v].cmds[trace[k].i])
    {
      assert PlaceIs(origin, trace[k], executed[k]);
      AtIs(script, origin, trace[k].v, trace[k].i);
      TokenStands(tokens, script, origin, labels, trace[k].v, trace[k].i);
    }
  }

  // A command executed is what its token says.
  predicate Does(cmd: Cmd, token: Token) {
    match token
    case Plain(id) => cmd == Act(id)
    case Ending(id) => cmd == Stop(id)
    case LeftBrace => cmd.Open?
    case RightBrace => cmd == Close
    case Colon(name) => cmd == Label(name)
    case Jump(name) => cmd == Branch(name)
  }

  /** A script compiled and executed for one cycle: it is accepted exactly if its braces balance and its jumps have
      labels; and the commands executed are, one by one, those of the tokens that are executed in the text. */
  method RunScript(tokens: seq<Token>, answers: seq<bool>) returns (ok: bool, done: seq<Cmd>)
    requires Balanced(tokens) && AllLabelled(tokens) ==> ScopedTokens(tokens)
    ensures ok <==> Balanced(tokens) && AllLabelled(tokens)
    ensures ok ==> |done| == |Executed(tokens, answers)|
    ensures ok ==> forall k | 0 <= k < |done| ::
                     var p := Executed(tokens, answers)[k]; p < |tokens| && Does(done[k], tokens[p])
  {
    hide Unparse, Compiled, Structured, RunBlock, Marks, Placed, WellNested, ScopedTokens, AllLabelled, Balanced;
    done := [];
    var c := new Compiler();
    ok := c.CompileScript(tokens);
    if !ok { return; }
    var (script, labels) := (c.vectors, c.labels);
    ghost var origin := c.origin;
    NotedCompiled(tokens, script, origin, labels, c.jumps);
    ScopedAlike(tokens, script, origin, labels);
    var trace := ExecuteProgram(script, labels, answers);
    ProgramAlike(tokens, script, origin, labels, answers);
    done := seq(|trace|, k requires 0 <= k < |trace| && IsPlace(script, trace[k])
                         => script[trace[k].v].cmds[trace[k].i]);
  }
}
