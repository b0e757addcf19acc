/**
 Nested `{}` blocks of a sed script: every block is a vector of commands with a link back to where it
 was entered, and execution is one loop over a command pointer.
 */
module SedBlocks {

  // Commands, as far as control goes: `Act` does something and goes on, `Stop` ends the cycle.
  datatype Token = Plain(id: nat) | Ending(id: nat) | LeftBrace | RightBrace | Colon(name: string) | Jump(name: string)

  datatype Cmd = Act(id: nat) | Stop(id: nat) | Open(sub: nat) | Close | Label(name: string) | Branch(name: string)

  datatype Vector = Vector(cmds: seq<Cmd>, returnV: nat, returnI: nat)

  type Script = seq<Vector>

  datatype Place = Place(v: nat, i: nat)

  type Labels = map<string, Place>

  // ---------- Scripts as the compiler leaves them ----------

  // Vector v: its blocks come later and lead back to where they are entered, and it ends with a `}`
  // unless it is the program itself.
  ghost predicate Linked(script: Script, v: nat)
    requires v < |script|
  {
    && (forall k: nat | k < |script[v].cmds| && script[v].cmds[k].Open? ::
          v < script[v].cmds[k].sub < |script|
          && script[script[v].cmds[k].sub].returnV == v && script[script[v].cmds[k].sub].returnI == k)
    && (forall k: nat | k < |script[v].cmds| && script[v].cmds[k].Close? :: v > 0 && k == |script[v].cmds| - 1)
  }

  ghost predicate Closed(script: Script, v: nat)
    requires v < |script|
  {
    script[v].cmds != [] && script[v].cmds[|script[v].cmds| - 1].Close?
  }

  // Block v is entered from where it leads back to.
  ghost predicate Entered(script: Script, v: nat)
    requires v < |script|
  {
    script[v].returnV < v && script[v].returnI < |script[script[v].returnV].cmds|
    && script[script[v].returnV].cmds[script[v].returnI] == Open(v)
  }

  ghost predicate WellNested(script: Script) {
    && script != []
    && (forall v: nat | v < |script| :: Linked(script, v))
    && (forall v: nat | 0 < v < |script| :: Closed(script, v) && Entered(script, v))
  }

  // ---------- Compiling ----------

  function TokenOf(cmd: Cmd): Token {
    match cmd
    case Act(id) => Plain(id)
    case Stop(id) => Ending(id)
    case Open(_) => LeftBrace
    case Close => RightBrace
    case Label(name) => Colon(name)
    case Branch(name) => Jump(name)
  }

  // The text of the first n commands of vector v, blocks written out.
  function Unparse(script: Script, v: nat, n: nat): seq<Token>
    requires v < |script| && n <= |script[v].cmds|
    decreases |script| - v, n
  {
    if n == 0 then []
    else
      var cmd := script[v].cmds[n - 1];
      Unparse(script, v, n - 1) + [TokenOf(cmd)]
      + (if cmd.Open? && v < cmd.sub < |script| then Unparse(script, cmd.sub, |script[cmd.sub].cmds|) else [])
  }

  ghost predicate SubsWithin(script: Script, v: nat, n: nat)
    requires v < |script| && n <= |script[v].cmds|
  {
    forall k: nat | k < n && script[v].cmds[k].Open? :: v < script[v].cmds[k].sub < |script|
  }

  // Vectors after v are as they were, and so are the first n commands of v.
  lemma {:induction false} UnparseSame(script: Script, after: Script, v: nat, n: nat)
    requires v < |script| <= |after| && n <= |script[v].cmds| && n <= |after[v].cmds|
    requires (forall k: nat | k < n :: script[v].cmds[k] == after[v].cmds[k]) && SubsWithin(script, v, n)
    requires forall w: nat | v < w < |script| :: after[w] == script[w] && SubsWithin(script, w, |script[w].cmds|)
    ensures Unparse(after, v, n) == Unparse(script, v, n)
    decreases |script| - v, n
  {
    if n > 0 {
      var cmd := script[v].cmds[n - 1];
      UnparseSame(script, after, v, n - 1);
      if cmd.Open? { UnparseSame(script, after, cmd.sub, |script[cmd.sub].cmds|); }
    }
  }

  function WithCommand(script: Script, v: nat, cmd: Cmd): Script
    requires v < |script|
  {
    script[v := script[v].(cmds := script[v].cmds + [cmd])]
  }

  function WithReturn(script: Script, v: nat, returnV: nat, returnI: nat): Script
    requires v < |script|
  {
    script[v := script[v].(returnV := returnV, returnI := returnI)]
  }

  function TextOf(script: Script, v: nat): seq<Token>
    requires v < |script|
  {
    Unparse(script, v, |script[v].cmds|)
  }

  // Vectors from `me` on: linked among themselves, and those after it closed.
  ghost predicate LinkedFrom(script: Script, me: nat) {
    && me < |script|
    && (forall v: nat | me <= v < |script| :: Linked(script, v))
    && (forall v: nat | me < v < |script| :: Closed(script, v) && Entered(script, v))
  }

  ghost predicate NoClose(script: Script, me: nat) {
    me < |script| && forall k: nat | k < |script[me].cmds| :: !script[me].cmds[k].Close?
  }

  ghost predicate SameBelow(script: Script, after: Script, me: nat) {
    me <= |script| && me <= |after| && forall v: nat | v < me :: after[v] == script[v]
  }

  lemma TextSame(script: Script, after: Script, me: nat, n: nat)
    requires LinkedFrom(script, me) && |script| <= |after| && n == |script[me].cmds| <= |after[me].cmds|
    requires after[me].cmds[..n] == script[me].cmds
    requires forall w: nat | me < w < |script| :: after[w] == script[w]
    ensures Unparse(after, me, n) == TextOf(script, me)
  {
    forall w: nat | me <= w < |script| ensures SubsWithin(script, w, |script[w].cmds|) { assert Linked(script, w); }
    forall k: nat | k < n
      ensures script[me].cmds[k] == after[me].cmds[k]
    {
      assert after[me].cmds[..n][k] == after[me].cmds[k];
    }
    UnparseSame(script, after, me, n);
  }

  lemma AddPlain(script: Script, me: nat, cmd: Cmd)
    requires LinkedFrom(script, me) && NoClose(script, me) && !cmd.Open? && (cmd.Close? ==> me > 0)
    ensures var after := WithCommand(script, me, cmd);
            && LinkedFrom(after, me) && TextOf(after, me) == TextOf(script, me) + [TokenOf(cmd)]
            && SameBelow(script, after, me)
            && (if cmd.Close? then Closed(after, me) else NoClose(after, me))
  {
    hide Unparse;
    var after, n := WithCommand(script, me, cmd), |script[me].cmds|;
    TextSame(script, after, me, n);
    UnparseSnoc(after, me, n);
    forall v: nat | me <= v < |script| ensures Linked(after, v) { assert Linked(script, v); }
    forall v: nat | me < v < |script|
      ensures Closed(after, v) && Entered(after, v)
    {
      assert Closed(script, v) && Entered(script, v);
    }
  }

  lemma UnparseSnoc(script: Script, v: nat, n: nat)
    requires v < |script| && n < |script[v].cmds|
    ensures var cmd := script[v].cmds[n];
            Unparse(script, v, n + 1) == Unparse(script, v, n) + [TokenOf(cmd)]
                                         + (if cmd.Open? && v < cmd.sub < |script| then TextOf(script, cmd.sub) else [])
  {
  }

  // Storing where a block leads back to.
  lemma ReturnStored(script: Script, sub: nat, returnV: nat, returnI: nat)
    requires LinkedFrom(script, sub) && Closed(script, sub)
    ensures var after := WithReturn(script, sub, returnV, returnI);
            LinkedFrom(after, sub) && Closed(after, sub) && TextOf(after, sub) == TextOf(script, sub)
            && SameBelow(script, after, sub)
  {
    hide Unparse;
    var after := WithReturn(script, sub, returnV, returnI);
    TextSame(script, after, sub, |script[sub].cmds|);
    forall v: nat | sub <= v < |script| ensures Linked(after, v) { assert Linked(script, v); }
    forall v: nat | sub < v < |script|
      ensures Closed(after, v) && Entered(after, v)
    {
      assert Closed(script, v) && Entered(script, v);
    }
  }

  // A block has been read into the vectors from `sub` on; it is entered from, and returns to, the last
  // command of `me`.
  lemma AddBlock(script: Script, me: nat, after: Script)
    requires LinkedFrom(script, me) && NoClose(script, me) && |script| < |after|
    requires SameBelow(WithCommand(script, me, Open(|script|)), after, |script|)
    requires LinkedFrom(after, |script|) && Closed(after, |script|)
    requires after[|script|].returnV == me && after[|script|].returnI == |script[me].cmds|
    ensures LinkedFrom(after, me) && NoClose(after, me) && SameBelow(script, after, me)
    ensures TextOf(after, me) == TextOf(script, me) + [LeftBrace] + TextOf(after, |script|)
  {
    hide Unparse;
    var n, mid := |script[me].cmds|, WithCommand(script, me, Open(|script|));
    forall v: nat | v < |script| ensures after[v] == mid[v] { }
    TextSame(script, after, me, n);
    UnparseSnoc(after, me, n);
    forall v: nat | me <= v < |after| ensures Linked(after, v) { BlockLinked(script, me, mid, after, v); }
    forall v: nat | me < v < |after| ensures Closed(after, v) && Entered(after, v) {
      if v < |script| { assert Closed(script, v) && Entered(script, v); }
    }
  }

  lemma BlockLinked(script: Script, me: nat, mid: Script, after: Script, v: nat)
    requires LinkedFrom(script, me) && NoClose(script, me) && |script| < |after| && me <= v < |after|
    requires mid == WithCommand(script, me, Open(|script|)) && forall w: nat | w < |script| :: after[w] == mid[w]
    requires LinkedFrom(after, |script|) && after[|script|].returnV == me
    requires after[|script|].returnI == |script[me].cmds|
    ensures Linked(after, v)
  {
    if v < |script| { assert Linked(script, v); }
  }

  lemma NewVector(before: Script)
    ensures var (now, me) := (before + [Vector([], 0, 0)], |before|);
            LinkedFrom(now, me) && NoClose(now, me) && TextOf(now, me) == [] && SameBelow(before, now, me)
  {
  }

  lemma SameBelowTrans(a: Script, b: Script, c: Script, me: nat)
    requires SameBelow(a, b, me) && SameBelow(b, c, me)
    ensures SameBelow(a, c, me)
  {
  }

  // While a block is read, the vectors before it stay, but for the command added to `me`.
  lemma BlockFrame(before: Script, was: Script, cmd: Cmd, after: Script, me: nat)
    requires me < |was| && SameBelow(before, was, me) && SameBelow(WithCommand(was, me, cmd), after, |was|)
    ensures SameBelow(before, after, me) && me < |after| && after[me].cmds == was[me].cmds + [cmd]
  {
  }

  lemma ReturnFrame(script: Script, sub: nat, returnV: nat, returnI: nat)
    requires sub < |script|
    ensures SameBelow(script, WithReturn(script, sub, returnV, returnI), sub)
  {
  }

  // How many blocks are open after the first n tokens.
  function Depth(tokens: seq<Token>, n: nat): int
    requires n <= |tokens|
  {
    if n == 0 then 0
    else Depth(tokens, n - 1) + (if tokens[n - 1].LeftBrace? then 1 else if tokens[n - 1].RightBrace? then -1 else 0)
  }

  // No block is closed that has not been opened.
  ghost predicate Opened(tokens: seq<Token>, n: nat)
    requires n <= |tokens|
  {
    forall k: nat | k <= n :: Depth(tokens, k) >= 0
  }

  ghost predicate Balanced(tokens: seq<Token>) { Opened(tokens, |tokens|) && Depth(tokens, |tokens|) == 0 }

  // Where the labels stand among the first n tokens; of two labels with the same name, the last one.
  function Marks(tokens: seq<Token>, n: nat): (marks: map<string, nat>)
    requires n <= |tokens|
    ensures forall name | name in marks :: marks[name] < n && tokens[marks[name]] == Colon(name)
  {
    if n == 0 then map[]
    else if tokens[n - 1].Colon? then Marks(tokens, n - 1)[tokens[n - 1].name := n - 1]
    else Marks(tokens, n - 1)
  }

  // The names jumped to.
  function Jumps(tokens: seq<Token>, n: nat): seq<string>
    requires n <= |tokens|
  {
    if n == 0 then []
    else Jumps(tokens, n - 1) + (if tokens[n - 1].Jump? then [tokens[n - 1].name] else [])
  }

  // origin[v][i] is the token command i of vector v has been read from.
  type Origin = seq<seq<nat>>

  // What has been noted down while reading n tokens: the labels, the jumps, and a token for every command.
  ghost predicate Noted(tokens: seq<Token>, n: nat, script: Script, origin: Origin, labels: Labels, jumps: seq<string>)
    requires n <= |tokens|
  {
    && |origin| == |script| && (forall v: nat | v < |script| :: |origin[v]| == |script[v].cmds|)
    && jumps == Jumps(tokens, n) && labels.Keys == Marks(tokens, n).Keys
    && (forall name | name in labels :: PlaceIs(origin, labels[name], Marks(tokens, n)[name]))
  }

  predicate PlaceIs(origin: Origin, place: Place, p: nat) {
    place.v < |origin| && place.i < |origin[place.v]| && origin[place.v][place.i] == p
  }

  // From vector me on, whose text begins at token `start`, every command comes from the token where it is spelled
  // out.
  ghost predicate Placed(script: Script, origin: Origin, me: nat, start: nat) {
    && |origin| == |script| && (forall v: nat | v < |script| :: |origin[v]| == |script[v].cmds|)
    && (forall v: nat, i: nat | me <= v < |script| && i < |script[v].cmds| ::
          origin[v][i] == (if v == me then start else origin[v][0]) + |Unparse(script, v, i)|)
    && (forall v: nat, i: nat | me <= v < |script| && i < |script[v].cmds| && script[v].cmds[i].Open? ::
          Inside(script, origin, v, i, script[v].cmds[i].sub))
  }

  predicate Inside(script: Script, origin: Origin, v: nat, i: nat, sub: nat) {
    v < |origin| && i < |origin[v]| && sub < |origin| && origin[sub] != [] && origin[sub][0] == origin[v][i] + 1
  }

  lemma NothingSpelled(script: Script, v: nat)
    requires v < |script|
    ensures Unparse(script, v, 0) == []
  {
  }

  function WithOrigin(origin: Origin, v: nat, p: nat): Origin
    requires v < |origin|
  {
    origin[v := origin[v] + [p]]
  }

  lemma NewPlaced(before: Script, origin: Origin, start: nat)
    requires |origin| == |before| && forall v: nat | v < |before| :: |origin[v]| == |before[v].cmds|
    ensures Placed(before + [Vector([], 0, 0)], origin + [[]], |before|, start)
  {
  }

  // A command that opens no block.
  lemma PlacedPlain(script: Script, origin: Origin, me: nat, start: nat, cmd: Cmd)
    requires LinkedFrom(script, me) && Placed(script, origin, me, start) && !cmd.Open?
    ensures Placed(WithCommand(script, me, cmd), WithOrigin(origin, me, start + |TextOf(script, me)|), me, start)
  {
    hide Unparse;
    var (after, origin') := (WithCommand(script, me, cmd), WithOrigin(origin, me, start + |TextOf(script, me)|));
    forall v: nat, i: nat | me <= v < |after| && i < |after[v].cmds|
      ensures origin'[v][i] == (if v == me then start else origin'[v][0]) + |Unparse(after, v, i)|
    {
      SubsInside(script, me);
      UnparseSame(script, after, v, i);
    }
    forall v: nat, i: nat | me <= v < |after| && i < |after[v].cmds| && after[v].cmds[i].Open?
      ensures Inside(after, origin', v, i, after[v].cmds[i].sub)
    {
      assert script[v].cmds[i] == after[v].cmds[i] && Inside(script, origin, v, i, script[v].cmds[i].sub);
      assert Linked(script, v);
    }
  }

  lemma SubsInside(script: Script, me: nat)
    requires LinkedFrom(script, me)
    ensures forall v: nat | me <= v < |script| :: SubsWithin(script, v, |script[v].cmds|)
  {
    forall v: nat | me <= v < |script| ensures SubsWithin(script, v, |script[v].cmds|) { assert Linked(script, v); }
  }

  // A block has been read: the brace from token start + |text so far|, its commands from the next one on.
  lemma PlacedBlock(script: Script, origin: Origin, me: nat, start: nat, after: Script, origin': Origin)
    requires LinkedFrom(script, me) && Placed(script, origin, me, start) && |script| < |after|
    requires SameBelow(WithCommand(script, me, Open(|script|)), after, |script|) && LinkedFrom(after, |script|)
    requires after[|script|].cmds != []
    requires Placed(after, origin', |script|, start + |TextOf(script, me)| + 1)
    requires origin'[..|script|] == WithOrigin(origin, me, start + |TextOf(script, me)|)
    ensures Placed(after, origin', me, start)
  {
    hide Unparse;
    var (n, at) := (|script|, start + |TextOf(script, me)|);
    SubsInside(script, me);
    SubsInside(after, n);
    forall v: nat, i: nat | me <= v < |after| && i < |after[v].cmds|
      ensures origin'[v][i] == (if v == me then start else origin'[v][0]) + |Unparse(after, v, i)|
    {
      if v < n {
        assert origin'[v] == origin'[..n][v];
        UnparseSame(script, after, v, i);
      } else if v == n {
        NothingSpelled(after, v);
      }
    }
    forall v: nat, i: nat | me <= v < |after| && i < |after[v].cmds| && after[v].cmds[i].Open?
      ensures Inside(after, origin', v, i, after[v].cmds[i].sub)
    {
      if v < n {
        assert origin'[v] == origin'[..n][v];
        if v > me || i < |script[v].cmds| {
          assert script[v].cmds[i] == after[v].cmds[i] && Inside(script, origin, v, i, script[v].cmds[i].sub);
          assert Linked(script, v) && origin'[script[v].cmds[i].sub] == origin'[..n][script[v].cmds[i].sub];
        } else {
          NothingSpelled(after, n);
          assert origin'[n][0] == at + 1 + |Unparse(after, n, 0)|;
        }
      }
    }
  }

  // The link back does not change what a block is read from.
  lemma PlacedReturn(script: Script, origin: Origin, sub: nat, start: nat, returnV: nat, returnI: nat)
    requires LinkedFrom(script, sub) && Placed(script, origin, sub, start)
    ensures Placed(WithReturn(script, sub, returnV, returnI), origin, sub, start)
  {
    hide Unparse;
    var after := WithReturn(script, sub, returnV, returnI);
    SubsInside(script, sub);
    forall v: nat, i: nat | sub <= v < |after| && i < |after[v].cmds|
      ensures origin[v][i] == (if v == sub then start else origin[v][0]) + |Unparse(after, v, i)|
    {
      UnparseSame(script, after, v, i);
    }
    forall v: nat, i: nat | sub <= v < |after| && i < |after[v].cmds| && after[v].cmds[i].Open?
      ensures Inside(after, origin, v, i, after[v].cmds[i].sub)
    {
      assert Inside(script, origin, v, i, script[v].cmds[i].sub);
    }
  }

  // Every name jumped to is that of a label.
  ghost predicate AllLabelled(tokens: seq<Token>) {
    forall name | Jump(name) in tokens :: name != "" ==> Colon(name) in tokens
  }

  lemma {:induction false} NamesAre(tokens: seq<Token>, n: nat, name: string)
    requires n <= |tokens|
    ensures name in Jumps(tokens, n) <==> Jump(name) in tokens[..n]
    ensures name in Marks(tokens, n).Keys <==> Colon(name) in tokens[..n]
    decreases n
  {
    if n > 0 {
      NamesAre(tokens, n - 1, name);
      assert tokens[..n] == tokens[..n - 1] + [tokens[n - 1]];
    }
  }

  lemma LabelledIs(tokens: seq<Token>)
    ensures AllLabelled(tokens) <==>
            forall name | name in Jumps(tokens, |tokens|) :: name == "" || name in Marks(tokens, |tokens|).Keys
  {
    hide Jumps, Marks;
    assert tokens[..|tokens|] == tokens;
    if AllLabelled(tokens) {
      forall name | name in Jumps(tokens, |tokens|) ensures name == "" || name in Marks(tokens, |tokens|).Keys {
        NamesAre(tokens, |tokens|, name);
      }
    } else {
      var name :| Jump(name) in tokens && name != "" && Colon(name) !in tokens;
      NamesAre(tokens, |tokens|, name);
    }
  }

  lemma InRange(script: Script, origin: Origin, me: nat, start: nat)
    requires LinkedFrom(script, me) && Placed(script, origin, me, start)
    ensures me < |script| == |origin| && (forall v: nat | v < |script| :: |origin[v]| == |script[v].cmds|)
  {
  }

  lemma NewNoted(tokens: seq<Token>, n: nat, script: Script, origin: Origin, labels: Labels, jumps: seq<string>)
    requires n <= |tokens| && Noted(tokens, n, script, origin, labels, jumps)
    ensures Noted(tokens, n, script + [Vector([], 0, 0)], origin + [[]], labels, jumps)
    ensures Placed(script + [Vector([], 0, 0)], origin + [[]], |script|, n) && |origin| == |script|
    ensures (origin + [[]])[..|script|] == origin
  {
    NewPlaced(script, origin, n);
    forall name | name in labels ensures PlaceIs(origin + [[]], labels[name], Marks(tokens, n)[name]) {
      assert PlaceIs(origin, labels[name], Marks(tokens, n)[name]);
    }
  }

  // A command has been read from token n.
  lemma NotedCommand(tokens: seq<Token>, n: nat, script: Script, origin: Origin, labels: Labels, jumps: seq<string>,
                     me: nat, cmd: Cmd)
    requires n < |tokens| && Noted(tokens, n, script, origin, labels, jumps) && me < |script|
    requires (cmd.Label? <==> tokens[n].Colon?) && (cmd.Branch? <==> tokens[n].Jump?)
    requires (cmd.Label? ==> cmd.name == tokens[n].name) && (cmd.Branch? ==> cmd.name == tokens[n].name)
    ensures Noted(tokens, n + 1, WithCommand(script, me, cmd), WithOrigin(origin, me, n),
                  if cmd.Label? then labels[cmd.name := Place(me, |script[me].cmds|)] else labels,
                  if cmd.Branch? then jumps + [cmd.name] else jumps)
  {
    var origin' := WithOrigin(origin, me, n);
    var labels' := if cmd.Label? then labels[cmd.name := Place(me, |script[me].cmds|)] else labels;
    forall name | name in labels' ensures PlaceIs(origin', labels'[name], Marks(tokens, n + 1)[name]) {
      if !(cmd.Label? && name == cmd.name) { assert PlaceIs(origin, labels[name], Marks(tokens, n)[name]); }
    }
  }

  lemma NotedReturn(tokens: seq<Token>, n: nat, script: Script, origin: Origin, labels: Labels, jumps: seq<string>,
                    sub: nat, returnV: nat, returnI: nat)
    requires n <= |tokens| && Noted(tokens, n, script, origin, labels, jumps) && sub < |script|
    ensures Noted(tokens, n, WithReturn(script, sub, returnV, returnI), origin, labels, jumps)
  {
  }

  lemma CutAtBrace(tokens: seq<Token>, start: nat, at: nat, next: nat)
    requires start <= at < next <= |tokens| && tokens[at] == LeftBrace
    ensures tokens[start..next] == tokens[start..at] + [LeftBrace] + tokens[at + 1..next]
  {
  }

  lemma BelowSame(from: Origin, mid: Origin, origin: Origin, me: nat, sub: nat, at: nat)
    requires me < |from| == sub <= |origin| && mid == WithOrigin(from, me, at) && origin[..sub] == mid
    ensures origin[..me] == from[..me]
  {
    assert origin[..me] == origin[..sub][..me];
  }

  lemma EndOf(script: Script, me: nat, sub: nat)
    requires LinkedFrom(script, sub) && Closed(script, sub)
    ensures script[sub].cmds != []
  {
  }

  class Compiler {
    var vectors: Script
    var programDepth: nat
    var labels: Labels
    var jumps: seq<string>
    ghost var origin: Origin

    constructor ()
      ensures vectors == [] && programDepth == 0 && labels == map[] && jumps == [] && origin == []
    {
      vectors, programDepth, labels, jumps, origin := [], 0, map[], [], [];
    }

    // Reads commands into a new vector, up to its `}` (closed) or to the end of the script.
    method CompileProgram(tokens: seq<Token>, start: nat) returns (ok: bool, next: nat, closed: bool)
      requires start <= |tokens| && (programDepth > 0 <==> vectors != [])
      requires Opened(tokens, start) && Depth(tokens, start) == programDepth
      requires Noted(tokens, start, vectors, origin, labels, jumps)
      modifies this
      decreases |tokens| - start, 0
      ensures start <= next <= |tokens| && SameBelow(old(vectors), vectors, old(|vectors|))
      ensures old(|vectors|) < |vectors|
      ensures if ok then Opened(tokens, next) && Depth(tokens, next) == programDepth
              else next < |tokens| && !Opened(tokens, next + 1)
      ensures ok && closed ==>
                && programDepth + 1 == old(programDepth)
                && LinkedFrom(vectors, old(|vectors|)) && Closed(vectors, old(|vectors|))
      ensures ok && !closed ==> next == |tokens| && programDepth >= old(programDepth)
      ensures ok && !closed && programDepth == old(programDepth) ==>
                LinkedFrom(vectors, old(|vectors|)) && NoClose(vectors, old(|vectors|))
      ensures ok && (closed || programDepth == old(programDepth)) ==>
                && TextOf(vectors, old(|vectors|)) == tokens[start..next]
                && Noted(tokens, next, vectors, origin, labels, jumps)
                && Placed(vectors, origin, old(|vectors|), start) && origin[..old(|vectors|)] == old(origin)
    {
      hide LinkedFrom, Closed, NoClose, Unparse, SameBelow, WithCommand, WithReturn, Noted, Placed, WithOrigin;
      var me := |vectors|;
      ghost var (before, from) := (vectors, origin);
      NewVector(before);
      NewNoted(tokens, start, vectors, origin, labels, jumps);
      vectors, origin := vectors + [Vector([], 0, 0)], origin + [[]];
      ok, next, closed := true, start, false;
      while next < |tokens|
        invariant start <= next <= |tokens| && me < |vectors| && programDepth == old(programDepth)
        invariant SameBelow(before, vectors, me) && LinkedFrom(vectors, me) && NoClose(vectors, me)
        invariant TextOf(vectors, me) == tokens[start..next]
        invariant ok && Opened(tokens, next) && Depth(tokens, next) == programDepth
        invariant Noted(tokens, next, vectors, origin, labels, jumps)
        invariant Placed(vectors, origin, me, start) && |from| == me <= |origin| && origin[..me] == from
      {
        ghost var was := vectors;
        var token := tokens[next];
        assert tokens[start..next + 1] == tokens[start..next] + [token];
        if token.RightBrace? && programDepth == 0 {
          assert Depth(tokens, next + 1) < 0;
          return false, next, false;
        }
        if token.LeftBrace? {
          programDepth := programDepth + 1;
          ok, next, closed := ReadBlock(tokens, next, me, before, start);
          if !ok || !closed { return; }
          closed := false;
        } else {
          ReadCommand(tokens, next, me, start);
          SameBelowTrans(before, was, vectors, me);
          next := next + 1;
          if token.RightBrace? {
            programDepth := programDepth - 1;
            closed := true;
            return;
          }
        }
      }
    }

    // One command that opens no block.
    method ReadCommand(tokens: seq<Token>, next: nat, me: nat, ghost start: nat)
      requires start <= next < |tokens| && LinkedFrom(vectors, me) && NoClose(vectors, me)
      requires !tokens[next].LeftBrace? && (tokens[next].RightBrace? ==> me > 0)
      requires TextOf(vectors, me) == tokens[start..next] && Placed(vectors, origin, me, start)
      requires Noted(tokens, next, vectors, origin, labels, jumps)
      modifies this`vectors, this`labels, this`jumps, this`origin
      ensures LinkedFrom(vectors, me) && |vectors| == |old(vectors)| && SameBelow(old(vectors), vectors, me)
      ensures if tokens[next].RightBrace? then Closed(vectors, me) else NoClose(vectors, me)
      ensures TextOf(vectors, me) == tokens[start..next] + [tokens[next]]
      ensures Placed(vectors, origin, me, start) && |origin| == |vectors| && origin[..me] == old(origin)[..me]
      ensures Noted(tokens, next + 1, vectors, origin, labels, jumps)
    {
      hide LinkedFrom, Closed, NoClose, Unparse, SameBelow, WithCommand, Noted, Placed, Marks, Jumps;
      var cmd := match tokens[next]
        case Plain(id) => Act(id)
        case Ending(id) => Stop(id)
        case RightBrace => Close
        case Colon(name) => Label(name)
        case Jump(name) => Branch(name)
        case LeftBrace => Close;
      ghost var was := vectors;
      InRange(was, origin, me, start);
      AddPlain(was, me, cmd);
      PlacedPlain(was, origin, me, start, cmd);
      NotedCommand(tokens, next, was, origin, labels, jumps, me, cmd);
      assert TokenOf(cmd) == tokens[next] && |TextOf(was, me)| == next - start;
      if cmd.Label? { labels := labels[cmd.name := Place(me, |vectors[me].cmds|)]; }
      if cmd.Branch? { jumps := jumps + [cmd.name]; }
      AddCommand(me, cmd, next);
    }

    method AddCommand(v: nat, cmd: Cmd, ghost p: nat)
      requires v < |vectors| == |origin|
      modifies this`vectors, this`origin
      ensures vectors == WithCommand(old(vectors), v, cmd) && |vectors| == old(|vectors|)
      ensures origin == WithOrigin(old(origin), v, p)
    {
      vectors := vectors[v := vectors[v].(cmds := vectors[v].cmds + [cmd])];
      origin := origin[v := origin[v] + [p]];
    }

    // `{`: the command, and the block it opens.
    method ReadBlock(tokens: seq<Token>, at: nat, me: nat, ghost before: Script, ghost start: nat)
      returns (ok: bool, next: nat, closed: bool)
      requires start <= at < |tokens| && tokens[at] == LeftBrace && me < |vectors| && programDepth > 0
      requires LinkedFrom(vectors, me) && NoClose(vectors, me) && SameBelow(before, vectors, me)
      requires TextOf(vectors, me) == tokens[start..at]
      requires Opened(tokens, at + 1) && Depth(tokens, at + 1) == programDepth
      requires Noted(tokens, at, vectors, origin, labels, jumps) && Placed(vectors, origin, me, start)
      modifies this
      decreases |tokens| - at - 1, 1
      ensures at < next <= |tokens| && me < |vectors| && SameBelow(before, vectors, me)
      ensures if ok then Opened(tokens, next) && Depth(tokens, next) == programDepth
              else next < |tokens| && !Opened(tokens, next + 1)
      ensures ok && closed ==> programDepth + 1 == old(programDepth)
                               && LinkedFrom(vectors, me) && NoClose(vectors, me)
                               && TextOf(vectors, me) == tokens[start..next]
      ensures ok && closed ==> Noted(tokens, next, vectors, origin, labels, jumps) && Placed(vectors, origin, me, start)
                               && me <= |origin| && me <= |old(origin)| && origin[..me] == old(origin)[..me]
      ensures ok && !closed ==> next == |tokens| && programDepth >= old(programDepth)
    {
      hide LinkedFrom, Closed, NoClose, Unparse, SameBelow, Noted, Placed, Marks, Jumps, WithCommand, WithOrigin;
      var sub := |vectors|;
      ghost var (was, from) := (vectors, origin);
      InRange(was, origin, me, start);
      NotedCommand(tokens, at, was, origin, labels, jumps, me, Open(sub));
      assert |TextOf(was, me)| == at - start;
      AddCommand(me, Open(sub), at);
      ghost var (mid, midFrom) := (vectors, origin);
      ok, next, closed := CompileProgram(tokens, at + 1);
      BlockFrame(before, was, Open(|was|), vectors, me);
      if !ok { return; }
      ghost var read := vectors;
      assert closed ==> LinkedFrom(read, sub) && Placed(read, origin, sub, at + 1);
      if closed { EndOf(read, me, sub); }
      vectors := vectors[sub := vectors[sub].(returnV := me, returnI := |vectors[me].cmds| - 1)];
      ReturnFrame(read, |was|, me, |was[me].cmds|);
      SameBelowTrans(mid, read, vectors, |was|);
      BlockFrame(before, was, Open(|was|), vectors, me);
      if closed {
        ReturnStored(read, |was|, me, |was[me].cmds|);
        AddBlock(was, me, vectors);
        CutAtBrace(tokens, start, at, next);
        PlacedReturn(read, origin, sub, at + 1, me, |was[me].cmds|);
        PlacedBlock(was, from, me, start, vectors, origin);
        NotedReturn(tokens, next, read, origin, labels, jumps, sub, me, |was[me].cmds|);
        BelowSame(from, midFrom, origin, me, sub, at);
      }
    }

    /** The whole script: accepted exactly if every `}` has its `{` and the other way round and there is a label for
        every name jumped to; and then the vectors are well nested and spell out the script, and of the labels with
        a name the last one counts. */
    method CompileScript(tokens: seq<Token>) returns (ok: bool)
      requires vectors == [] && programDepth == 0 && labels == map[] && jumps == [] && origin == []
      modifies this
      ensures ok <==> Balanced(tokens) && AllLabelled(tokens)
      ensures ok ==> WellNested(vectors) && TextOf(vectors, 0) == tokens
      ensures ok ==> Noted(tokens, |tokens|, vectors, origin, labels, jumps) && Placed(vectors, origin, 0, 0)
    {
      hide Unparse, Placed;
      var next, closed;
      ok, next, closed := CompileProgram(tokens, 0);
      if programDepth != 0 { return false; }
      if ok {
        assert tokens[0..|tokens|] == tokens;
        assert Linked(vectors, 0);
        LabelledIs(tokens);
        assert jumps == Jumps(tokens, |tokens|) && labels.Keys == Marks(tokens, |tokens|).Keys;
        ok := forall name | name in jumps :: name == "" || name in labels;
      }
    }
  }

  // ---------- Executing ----------

  // Branches lead to labels of the same block or of the program itself; a branch without a name ends the cycle
  // unless there is a label without one.
  ghost predicate Scoped(script: Script, labels: Labels) {
    forall v: nat, k: nat | v < |script| && k < |script[v].cmds| && script[v].cmds[k].Branch? ::
      var name := script[v].cmds[k].name;
      (name != "" ==> name in labels) && (name in labels ==> InScope(script, v, labels[name]))
  }

  predicate InScope(script: Script, v: nat, target: Place) {
    (target.v == v || target.v == 0) && target.v < |script| && target.i < |script[target.v].cmds|
  }

  // How the commands from one on come to an end: time is up, the cycle is over, the block is left
  // through its `}`, or a branch leads out of it to command i of the program.
  datatype Outcome = Cut | Ended | Returned | Jumped(i: nat)

  // The commands executed, and the answers not used up.
  datatype Run = Run(trace: seq<Place>, rest: seq<bool>, out: Outcome)

  function Then(trace: seq<Place>, run: Run): Run { Run(trace + run.trace, run.rest, run.out) }

  // Structured execution from command i of block v: a block is executed as part of its `{`, and no
  // links are followed. Every command evaluated takes one answer, whether its addresses match.
  ghost function Structured(script: Script, labels: Labels, v: nat, i: nat, answers: seq<bool>): (run: Run)
    requires WellNested(script) && Scoped(script, labels) && v < |script|
    ensures |run.rest| <= |answers|
    ensures run.out.Returned? ==> |run.rest| < |answers| && v > 0
    ensures run.out.Jumped? ==> |run.rest| < |answers| && run.out.i < |script[0].cmds| && v > 0
    decreases |answers|, 0
  {
    if i >= |script[v].cmds| then Run([], answers, Ended)
    else if answers == [] then Run([], [], Cut)
    else
      assert Linked(script, v);
      var (cmd, rest) := (script[v].cmds[i], answers[1..]);
      if !cmd.Close? && !answers[0] then Structured(script, labels, v, i + 1, rest)
      else
        match cmd
        case Close => Run([], rest, Returned)
        case Stop(_) => Run([Place(v, i)], rest, Ended)
        case Open(sub) =>
          Then([Place(v, i)], AfterBlock(script, labels, v, i, Structured(script, labels, sub, 0, rest)))
        case Branch(name) =>
          if name !in labels then Run([Place(v, i)], rest, Ended)
          else if labels[name].v == v then Then([Place(v, i)], Structured(script, labels, v, labels[name].i, rest))
          else Run([Place(v, i)], rest, Jumped(labels[name].i))
        case Act(_) => Then([Place(v, i)], Structured(script, labels, v, i + 1, rest))
        case Label(_) => Then([Place(v, i)], Structured(script, labels, v, i + 1, rest))
  }

  // What becomes of block v when the block entered at its command i has been executed.
  ghost function AfterBlock(script: Script, labels: Labels, v: nat, i: nat, inner: Run): (run: Run)
    requires WellNested(script) && Scoped(script, labels) && v < |script|
    requires inner.out.Jumped? ==> inner.out.i < |script[0].cmds|
    ensures |run.rest| <= |inner.rest| && (run.out.Returned? ==> v > 0)
    ensures run.out.Jumped? ==> run.out.i < |script[0].cmds| && v > 0
    decreases |inner.rest|, 1
  {
    if inner.out.Returned? then Then(inner.trace, Structured(script, labels, v, i + 1, inner.rest))
    else if inner.out.Jumped? && v == 0 then Then(inner.trace, Structured(script, labels, 0, inner.out.i, inner.rest))
    else inner
  }

  // One loop over a command pointer `at`; vec is where a `}` looks for its link.
  ghost function Flat(script: Script, labels: Labels, vec: nat, at: Place, answers: seq<bool>): seq<Place>
    requires WellNested(script) && Scoped(script, labels) && vec < |script| && at.v < |script|
    decreases |answers|
  {
    if at.i >= |script[at.v].cmds| || answers == [] then []
    else
      assert Linked(script, at.v);
      var (cmd, next, rest) := (script[at.v].cmds[at.i], Place(at.v, at.i + 1), answers[1..]);
      if !cmd.Close? && !answers[0] then Flat(script, labels, vec, next, rest)
      else
        match cmd
        case Close =>
          var link := script[vec];
          if link.returnV < |script|
          then Flat(script, labels, link.returnV, Place(link.returnV, link.returnI + 1), rest) else []
        case Stop(_) => [at]
        case Open(sub) => [at] + Flat(script, labels, sub, Place(sub, 0), rest)
        case Branch(name) => [at] + (if name !in labels then [] else Flat(script, labels, vec, labels[name], rest))
        case Act(_) => [at] + Flat(script, labels, vec, next, rest)
        case Label(_) => [at] + Flat(script, labels, vec, next, rest)
  }

  // In the program itself vec does not matter: it has no `}`, and `{` sets vec.
  lemma {:induction false} TopForgets(script: Script, labels: Labels, x: nat, y: nat, i: nat, answers: seq<bool>)
    requires WellNested(script) && Scoped(script, labels) && x < |script| && y < |script|
    ensures Flat(script, labels, x, Place(0, i), answers) == Flat(script, labels, y, Place(0, i), answers)
    decreases |answers|
  {
    if i < |script[0].cmds| && answers != [] {
      assert Linked(script, 0);
      TopForgets(script, labels, x, y, i + 1, answers[1..]);
      match script[0].cmds[i]
      case Branch(name) => if name in labels { TopForgets(script, labels, x, y, labels[name].i, answers[1..]); }
      case _ =>
    }
  }

  // What the loop does after a run of block v.
  ghost function Onward(script: Script, labels: Labels, v: nat, run: Run): seq<Place>
    requires WellNested(script) && Scoped(script, labels) && v < |script|
  {
    if run.out.Returned? && script[v].returnV < |script| then
      Flat(script, labels, script[v].returnV, Place(script[v].returnV, script[v].returnI + 1), run.rest)
    else if run.out.Jumped? then Flat(script, labels, 0, Place(0, run.out.i), run.rest)
    else []
  }

  // A step more in front.
  lemma OneMore(script: Script, labels: Labels, v: nat, here: Place, run: Run, flat: seq<Place>)
    requires WellNested(script) && Scoped(script, labels) && v < |script|
    requires flat == run.trace + Onward(script, labels, v, run)
    ensures [here] + flat == Then([here], run).trace + Onward(script, labels, v, Then([here], run))
  {
    hide WellNested, Scoped, Flat;
    assert [here] + (run.trace + Onward(script, labels, v, run))
           == ([here] + run.trace) + Onward(script, labels, v, run);
  }

  lemma {:induction false} FlatFollows(script: Script, labels: Labels, v: nat, i: nat, answers: seq<bool>)
    requires WellNested(script) && Scoped(script, labels) && v < |script|
    ensures var run := Structured(script, labels, v, i, answers);
            Flat(script, labels, v, Place(v, i), answers) == run.trace + Onward(script, labels, v, run)
    decreases |answers|, 0
  {
    hide WellNested, Scoped, Onward, Then;
    if i < |script[v].cmds| && answers != [] {
      LinkedAt(script, labels, v, i);
      var (cmd, rest, here) := (script[v].cmds[i], answers[1..], Place(v, i));
      if cmd.Act? || cmd.Label? || (!cmd.Close? && !answers[0]) {
        FlatFollows(script, labels, v, i + 1, rest);
        OneMore(script, labels, v, here, Structured(script, labels, v, i + 1, rest),
                Flat(script, labels, v, Place(v, i + 1), rest));
      } else if cmd.Open? {
        FlatThrough(script, labels, v, i, cmd.sub, rest);
        OneMore(script, labels, v, here, AfterBlock(script, labels, v, i, Structured(script, labels, cmd.sub, 0, rest)),
                Flat(script, labels, cmd.sub, Place(cmd.sub, 0), rest));
      } else if cmd.Branch? && cmd.name in labels && labels[cmd.name].v == v {
        var target := labels[cmd.name];
        FlatFollows(script, labels, v, target.i, rest);
        OneMore(script, labels, v, here, Structured(script, labels, v, target.i, rest),
                Flat(script, labels, v, target, rest));
      } else {
        FlatLeaves(script, labels, v, i, answers);
      }
    } else {
      FlatLeaves(script, labels, v, i, answers);
    }
  }

  // Where a run of block v is over at once.
  lemma FlatLeaves(script: Script, labels: Labels, v: nat, i: nat, answers: seq<bool>)
    requires WellNested(script) && Scoped(script, labels) && v < |script|
    requires i < |script[v].cmds| && answers != [] ==>
               var cmd := script[v].cmds[i];
               cmd.Close?
               || (answers[0]
                   && (cmd.Stop? || (cmd.Branch? && (cmd.name !in labels || labels[cmd.name].v != v))))
    ensures var run := Structured(script, labels, v, i, answers);
            Flat(script, labels, v, Place(v, i), answers) == run.trace + Onward(script, labels, v, run)
  {
    hide WellNested, Scoped;
    if i < |script[v].cmds| && answers != [] {
      LinkedAt(script, labels, v, i);
      var cmd := script[v].cmds[i];
      if cmd.Branch? && cmd.name in labels { TopForgets(script, labels, v, 0, labels[cmd.name].i, answers[1..]); }
    }
  }

  lemma LinkedAt(script: Script, labels: Labels, v: nat, i: nat)
    requires WellNested(script) && Scoped(script, labels) && v < |script| && i < |script[v].cmds|
    ensures var cmd := script[v].cmds[i];
            && (cmd.Open? ==> v < cmd.sub < |script| && script[cmd.sub].returnV == v && script[cmd.sub].returnI == i)
            && (cmd.Close? ==> v > 0)
            && (cmd.Branch? && cmd.name in labels ==> InScope(script, v, labels[cmd.name]))
  {
    assert Linked(script, v);
  }

  // Through a block, and on.
  lemma {:induction false} FlatThrough(script: Script, labels: Labels, v: nat, i: nat, sub: nat, rest: seq<bool>)
    requires WellNested(script) && Scoped(script, labels) && v < sub < |script| && i < |script[v].cmds|
    requires script[sub].returnV == v && script[sub].returnI == i
    ensures var run := AfterBlock(script, labels, v, i, Structured(script, labels, sub, 0, rest));
            Flat(script, labels, sub, Place(sub, 0), rest) == run.trace + Onward(script, labels, v, run)
    decreases |rest|, 1
  {
    hide WellNested, Scoped, Structured, Flat;
    var inner := Structured(script, labels, sub, 0, rest);
    FlatFollows(script, labels, sub, 0, rest);
    if inner.out.Returned? {
      FlatFollows(script, labels, v, i + 1, inner.rest);
      var run := Structured(script, labels, v, i + 1, inner.rest);
      assert inner.trace + (run.trace + Onward(script, labels, v, run))
             == (inner.trace + run.trace) + Onward(script, labels, v, run);
    } else if inner.out.Jumped? && v == 0 {
      FlatFollows(script, labels, 0, inner.out.i, inner.rest);
      var run := Structured(script, labels, 0, inner.out.i, inner.rest);
      assert inner.trace + (run.trace + Onward(script, labels, 0, run))
             == (inner.trace + run.trace) + Onward(script, labels, 0, run);
    }
  }

  /** Following return links in one flat loop executes the same commands, in the same order, as
      executing every block as part of its `{`. */
  lemma FlatIsStructured(script: Script, labels: Labels, answers: seq<bool>)
    requires WellNested(script) && Scoped(script, labels)
    ensures Flat(script, labels, 0, Place(0, 0), answers) == Structured(script, labels, 0, 0, answers).trace
  {
    FlatFollows(script, labels, 0, 0, answers);
  }

  // Where execution is: the block links are followed from, the command pointer, and the commands left.
  ghost predicate Pointing(script: Script, vec: nat, cur: Place, n: nat) {
    vec < |script| && cur.v < |script| && cur.i + n == |script[cur.v].cmds| && (cur.v == 0 || vec == cur.v)
  }

  // One round of the loop: the command evaluated, and what is next unless the cycle is over.
  method Step(script: Script, labels: Labels, vec: nat, cur: Place, n: nat, ghost answers: seq<bool>, matches: bool)
    returns (done: seq<Place>, over: bool, vec': nat, cur': Place, n': nat)
    requires WellNested(script) && Scoped(script, labels) && Pointing(script, vec, cur, n) && n > 0
    requires answers != [] && matches == answers[0]
    ensures Pointing(script, vec', cur', n')
    ensures Flat(script, labels, vec, cur, answers) ==
            done + (if over then [] else Flat(script, labels, vec', cur', answers[1..]))
  {
    hide WellNested, Scoped, Linked;
    var cmd := script[cur.v].cmds[cur.i];
    LinkedAt(script, labels, cur.v, cur.i);
    done, over, vec', cur', n' := if cmd.Close? then [] else [cur], false, vec, Place(cur.v, cur.i + 1), n - 1;
    if !cmd.Close? && !matches { return [], false, vec', cur', n'; }
    match cmd {
      case Open(sub) => vec', cur', n' := sub, Place(sub, 0), |script[sub].cmds|;
      case Close =>
        ReturnsBelow(script, labels, vec);
        vec' := script[vec].returnV;
        cur' := Place(vec', script[vec].returnI + 1);
        n' := |script[vec'].cmds| - script[vec].returnI - 1;
      case Branch(name) =>
        if name !in labels { over := true; } else {
          cur' := labels[name];
          n' := |script[cur'.v].cmds| - cur'.i;
        }
      case Stop(_) => over := true;
      case Act(_) =>
      case Label(_) =>
    }
  }

  /** execute_program, as far as control goes: the loop over cur_cmd and the count n of commands left.
      It executes what structured execution executes. */
  method ExecuteProgram(script: Script, labels: Labels, answers: seq<bool>) returns (trace: seq<Place>)
    requires WellNested(script) && Scoped(script, labels)
    ensures trace == Structured(script, labels, 0, 0, answers).trace
  {
    FlatIsStructured(script, labels, answers);
    var vec: nat, cur, n: nat := 0, Place(0, 0), |script[0].cmds|;
    var k: nat := 0;
    trace := [];
    assert answers[0..] == answers;
    hide WellNested, Scoped, Structured, Flat, Linked;
    FlatEnds(script, labels, vec, cur, n, answers[k..]);
    while n != 0 && k < |answers|
      invariant k <= |answers| && Pointing(script, vec, cur, n)
      invariant trace + Flat(script, labels, vec, cur, answers[k..]) == Flat(script, labels, 0, Place(0, 0), answers)
      invariant n == 0 || k == |answers| ==> Flat(script, labels, vec, cur, answers[k..]) == []
      decreases |answers| - k
    {
      var done, over;
      assert answers[k..][1..] == answers[k + 1..];
      done, over, vec, cur, n := Step(script, labels, vec, cur, n, answers[k..], answers[k]);
      Joined(trace, done, if over then [] else Flat(script, labels, vec, cur, answers[k + 1..]));
      trace := trace + done;
      k := k + 1;
      if over { return; }
      FlatEnds(script, labels, vec, cur, n, answers[k..]);
    }
  }

  lemma Joined(x: seq<Place>, y: seq<Place>, z: seq<Place>)
    ensures x + (y + z) == (x + y) + z && (x + y) + [] == x + y
  {
  }

  lemma FlatEnds(script: Script, labels: Labels, vec: nat, cur: Place, n: nat, answers: seq<bool>)
    requires WellNested(script) && Scoped(script, labels) && Pointing(script, vec, cur, n)
    ensures n == 0 || answers == [] ==> Flat(script, labels, vec, cur, answers) == []
  {
  }

  lemma ReturnsBelow(script: Script, labels: Labels, v: nat)
    requires WellNested(script) && 0 < v < |script|
    ensures script[v].returnV < v && script[v].returnI < |script[script[v].returnV].cmds|
  {
    assert Entered(script, v);
  }
}
