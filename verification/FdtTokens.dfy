/** The tokens of a flattened devicetree's structure block, and the machine that builds the tree from them. */
module FdtTokens {
  import opened Words

  type Text = seq<Byte>

  datatype Prop = Prop(name: Text, value: Text)

  /** What a node holds, in the order of the structure block. */
  datatype Item = Property(prop: Prop) | Child(node: Doc)

  datatype Items = Nothing | Snoc(init: Items, last: Item)

  datatype Doc = Doc(name: Text, items: Items)

  /** `struct devicetree_node`: the properties and the children, each in a list of their own. */
  datatype Node = Node(name: Text, props: seq<Prop>, children: seq<Node>)

  datatype Token = BeginNode(name: Text) | EndNode | PropToken(prop: Prop) | Nop | End

  function PropsOf(items: Items): seq<Prop> {
    match items
    case Nothing => []
    case Snoc(init, Property(p)) => PropsOf(init) + [p]
    case Snoc(init, Child(_)) => PropsOf(init)
  }

  function ChildrenOf(items: Items): seq<Node> {
    match items
    case Nothing => []
    case Snoc(init, Property(_)) => ChildrenOf(init)
    case Snoc(init, Child(d)) => ChildrenOf(init) + [NodeOf(d)]
  }

  function NodeOf(doc: Doc): Node {
    Node(doc.name, PropsOf(doc.items), ChildrenOf(doc.items))
  }

  // ----- the structure block of a document, section 5.4 of the Devicetree Specification v0.4

  function ItemTokens(items: Items): seq<Token> {
    match items
    case Nothing => []
    case Snoc(init, Property(p)) => ItemTokens(init) + [PropToken(p)]
    case Snoc(init, Child(d)) => ItemTokens(init) + DocTokens(d)
  }

  function DocTokens(doc: Doc): seq<Token> {
    [BeginNode(doc.name)] + ItemTokens(doc.items) + [EndNode]
  }

  function WithoutNops(ts: seq<Token>): seq<Token> {
    if ts == [] then []
    else (if ts[0] == Nop then [] else [ts[0]]) + WithoutNops(ts[1..])
  }

  // ----- the parser's machine

  /** The open nodes, outermost first; the last is `current_node`. */
  datatype State = State(stack: seq<Doc>, finished: bool, gotEnd: bool)

  /** How the parser ends. `Halted` is a panic of the kernel. */
  datatype Outcome = Tree(doc: Doc) | NoTree | Halted

  /** The label `fail`: `devicetree_free` panics on a node that has a parent. */
  function Fail(st: State): Outcome {
    if |st.stack| <= 1 then NoTree else Halted
  }

  datatype Stepped = Next(st: State) | Stop(outcome: Outcome)

  function Top(st: State): Doc
    requires st.stack != []
  {
    st.stack[|st.stack| - 1]
  }

  function Below(st: State): seq<Doc>
    requires st.stack != []
  {
    st.stack[..|st.stack| - 1]
  }

  function With(doc: Doc, item: Item): Doc {
    doc.(items := Snoc(doc.items, item))
  }

  /** What the parser does with one token; `last` says whether it is at the end of the block. */
  function Step(st: State, t: Token, last: bool): Stepped {
    match t
    case BeginNode(name) =>
      if st.finished then Stop(Fail(st)) else Next(st.(stack := st.stack + [Doc(name, Nothing)]))
    case EndNode =>
      if st.stack == [] || st.finished then Stop(Fail(st))
      else if |st.stack| > 1 then
        var outer := Below(st);
        Next(st.(stack := outer[|outer| - 1 := With(outer[|outer| - 1], Child(Top(st)))]))
      else Next(st.(finished := true))
    case PropToken(p) =>
      if st.stack == [] || st.finished then Stop(Fail(st))
      else Next(st.(stack := Below(st) + [With(Top(st), Property(p))]))
    case Nop => Next(st)
    case End => if last then Next(st.(gotEnd := true)) else Stop(Fail(st))
  }

  function Finish(st: State): Outcome {
    if !st.gotEnd || st.stack == [] || !st.finished then Fail(st) else Tree(Top(st))
  }

  function Run(st: State, ts: seq<Token>): Outcome
    decreases |ts|
  {
    if ts == [] then Finish(st)
    else match Step(st, ts[0], |ts| == 1)
      case Next(st') => Run(st', ts[1..])
      case Stop(outcome) => outcome
  }

  const BEGIN: State := State([], false, false)

  // ----- every document is parsed back

  function Append(x: Items, y: Items): Items {
    match y
    case Nothing => x
    case Snoc(init, last) => Snoc(Append(x, init), last)
  }

  lemma {:induction false} AppendNothing(y: Items)
    ensures Append(Nothing, y) == y
  {
    match y
    case Nothing =>
    case Snoc(init, _) => AppendNothing(init);
  }

  /** The items go to the innermost open node. */
  function Push(st: State, items: Items): State
    requires st.stack != []
  {
    st.(stack := Below(st) + [Top(st).(items := Append(Top(st).items, items))])
  }

  /** The node is complete: it is a child of the node around it, or the root. */
  function Complete(st: State, doc: Doc): State {
    if st.stack == [] then State([doc], true, st.gotEnd) else Push(st, Snoc(Nothing, Child(doc)))
  }

  lemma {:induction false} RunItems(st: State, items: Items, rest: seq<Token>)
    requires !st.finished && st.stack != [] && rest != []
    ensures Run(st, ItemTokens(items) + rest) == Run(Push(st, items), rest)
    decreases items, 0
  {
    match items
    case Nothing =>
      assert Below(st) + [Top(st)] == st.stack;
      assert ItemTokens(items) + rest == rest;
    case Snoc(init, last) =>
      var ts := match last case Property(p) => [PropToken(p)] case Child(d) => DocTokens(d);
      assert ItemTokens(items) + rest == ItemTokens(init) + (ts + rest);
      RunItems(st, init, ts + rest);
      var st' := Push(st, init);
      Pushed(st, init, last);
      match last
      case Property(p) => RunStep(st', PropToken(p), rest, Push(st, items));
      case Child(d) => RunDoc(st', d, rest);
  }

  lemma Pushed(st: State, init: Items, last: Item)
    requires st.stack != []
    ensures var st' := Push(st, init);
      && Push(st', Snoc(Nothing, last)) == Push(st, Snoc(init, last))
      && Below(st') + [With(Top(st'), last)] == Push(st, Snoc(init, last)).stack
  {
    var st' := Push(st, init);
    assert Below(st') == Below(st) && Top(st') == Top(st).(items := Append(Top(st).items, init));
    assert Append(Top(st').items, Snoc(Nothing, last)) == Snoc(Top(st').items, last);
  }

  lemma RunStep(st: State, t: Token, rest: seq<Token>, st': State)
    requires rest != [] && Step(st, t, false) == Next(st')
    ensures Run(st, [t] + rest) == Run(st', rest)
  {
    assert ([t] + rest)[1..] == rest;
  }

  lemma {:induction false} RunDoc(st: State, doc: Doc, rest: seq<Token>)
    requires !st.finished && rest != []
    ensures Run(st, DocTokens(doc) + rest) == Run(Complete(st, doc), rest)
    decreases doc, 1
  {
    var tail := [EndNode] + rest;
    var body := ItemTokens(doc.items) + tail;
    assert DocTokens(doc) + rest == [BeginNode(doc.name)] + body;
    var st1 := st.(stack := st.stack + [Doc(doc.name, Nothing)]);
    RunStep(st, BeginNode(doc.name), body, st1);
    RunItems(st1, doc.items, tail);
    AppendNothing(doc.items);
    var st2 := st.(stack := st.stack + [doc]);
    assert Push(st1, doc.items) == st2;
    Completed(st, doc);
    RunStep(st2, EndNode, rest, Complete(st, doc));
  }

  lemma Completed(st: State, doc: Doc)
    requires !st.finished
    ensures Step(st.(stack := st.stack + [doc]), EndNode, false) == Next(Complete(st, doc))
  {
    var st2 := st.(stack := st.stack + [doc]);
    assert Top(st2) == doc && Below(st2) == st.stack;
    if st.stack != [] {
      var item := Child(doc);
      assert Append(Top(st).items, Snoc(Nothing, item)) == Snoc(Top(st).items, item);
      assert st.stack[|st.stack| - 1 := With(Top(st), item)] == Below(st) + [With(Top(st), item)];
    }
  }

  /** `FDT_NOP` changes nothing, wherever it is before `FDT_END`. */
  lemma {:induction false} RunWithoutNops(st: State, ts: seq<Token>)
    requires ts != [] && ts[|ts| - 1] == End
    ensures Run(st, ts) == Run(st, WithoutNops(ts))
    ensures WithoutNops(ts) != [] && WithoutNops(ts)[|WithoutNops(ts)| - 1] == End
    decreases |ts|
  {
    if |ts| > 1 {
      var rest := WithoutNops(ts[1..]);
      RunWithoutNops(st, ts[1..]);
      match Step(st, ts[0], false) {
        case Next(st') => RunWithoutNops(st', ts[1..]);
        case Stop(_) =>
      }
      if ts[0] != Nop {
        assert WithoutNops(ts) == [ts[0]] + rest && WithoutNops(ts)[1..] == rest;
      } else {
        assert WithoutNops(ts) == rest;
      }
    } else {
      assert WithoutNops(ts) == ts;
    }
  }

  /** Parsing undoes writing, whatever `FDT_NOP` tokens were put in before `FDT_END`. */
  lemma ParsedBack(doc: Doc, ts: seq<Token>)
    requires ts != [] && ts[|ts| - 1] == End && WithoutNops(ts) == DocTokens(doc) + [End]
    ensures Run(BEGIN, ts) == Tree(doc)
  {
    RunWithoutNops(BEGIN, ts);
    RunDoc(BEGIN, doc, [End]);
  }

  // ----- and nothing else is parsed

  /** The tokens of the open nodes so far. */
  function Opened(stack: seq<Doc>): seq<Token> {
    if stack == [] then []
    else Opened(stack[..|stack| - 1]) + [BeginNode(stack[|stack| - 1].name)] + ItemTokens(stack[|stack| - 1].items)
  }

  /** The tokens that lead to this state, without `FDT_NOP`. */
  function Spelled(st: State): seq<Token> {
    Opened(st.stack) + (if st.finished then [EndNode] else []) + if st.gotEnd then [End] else []
  }

  ghost predicate StateOk(st: State) {
    st.finished ==> |st.stack| == 1
  }

  lemma OpenedSnoc(stack: seq<Doc>, d: Doc)
    ensures Opened(stack + [d]) == Opened(stack) + [BeginNode(d.name)] + ItemTokens(d.items)
  {
    assert (stack + [d])[..|stack|] == stack;
  }

  lemma Regroup<T>(p: seq<T>, i: seq<T>, b: T, j: seq<T>, e: T)
    ensures p + (i + ([b] + j + [e])) == p + i + [b] + j + [e]
  {
  }

  lemma CloseSpells(outer: seq<Doc>, d: Doc)
    requires outer != []
    ensures var n := |outer| - 1;
      Opened(outer[n := With(outer[n], Child(d))]) == Opened(outer + [d]) + [EndNode]
  {
    hide *;
    var n := |outer| - 1;
    ChildSpells(outer, d);
    OpenedSnoc(outer, d);
    LastSpells(outer);
    Regroup(Opened(outer[..n]) + [BeginNode(outer[n].name)], ItemTokens(outer[n].items), BeginNode(d.name),
            ItemTokens(d.items), EndNode);
  }

  lemma LastSpells(stack: seq<Doc>)
    requires stack != []
    ensures var n := |stack| - 1;
      Opened(stack) == Opened(stack[..n]) + [BeginNode(stack[n].name)] + ItemTokens(stack[n].items)
  {
  }

  lemma ChildSpells(outer: seq<Doc>, d: Doc)
    requires outer != []
    ensures var n := |outer| - 1;
      Opened(outer[n := With(outer[n], Child(d))]) ==
      Opened(outer[..n]) + [BeginNode(outer[n].name)] +
      (ItemTokens(outer[n].items) + ([BeginNode(d.name)] + ItemTokens(d.items) + [EndNode]))
  {
    var n := |outer| - 1;
    var more := With(outer[n], Child(d));
    assert more.name == outer[n].name && outer[n := more] == outer[..n] + [more];
    assert ItemTokens(more.items) == ItemTokens(outer[n].items) + DocTokens(d);
    assert DocTokens(d) == [BeginNode(d.name)] + ItemTokens(d.items) + [EndNode];
    hide *;
    OpenedSnoc(outer[..n], more);
  }

  lemma PropSpells(outer: seq<Doc>, d: Doc, p: Prop)
    ensures Opened(outer + [With(d, Property(p))]) == Opened(outer + [d]) + [PropToken(p)]
  {
    OpenedSnoc(outer, d);
    OpenedSnoc(outer, With(d, Property(p)));
    assert ItemTokens(With(d, Property(p)).items) == ItemTokens(d.items) + [PropToken(p)];
  }

  lemma BeginSpells(stack: seq<Doc>, name: Text)
    ensures Opened(stack + [Doc(name, Nothing)]) == Opened(stack) + [BeginNode(name)]
  {
    OpenedSnoc(stack, Doc(name, Nothing));
    assert ItemTokens(Nothing) == [];
  }

  lemma SpelledIs(st: State)
    ensures var open := if st.finished then Opened(st.stack) + [EndNode] else Opened(st.stack);
      Spelled(st) == if st.gotEnd then open + [End] else open
  {
  }

  lemma BeginStep(st: State, name: Text, st': State)
    requires !st.finished && !st.gotEnd && st' == st.(stack := st.stack + [Doc(name, Nothing)])
    ensures Spelled(st') == Spelled(st) + [BeginNode(name)]
  {
    SpelledIs(st);
    SpelledIs(st');
    BeginSpells(st.stack, name);
    hide *;
  }

  lemma CloseStep(st: State, st': State)
    requires !st.finished && !st.gotEnd && |st.stack| > 1
    requires var outer := Below(st); var n := |outer| - 1;
      st' == st.(stack := outer[n := With(outer[n], Child(Top(st)))])
    ensures Spelled(st') == Spelled(st) + [EndNode]
  {
    SpelledIs(st);
    SpelledIs(st');
    assert st.stack == Below(st) + [Top(st)];
    CloseSpells(Below(st), Top(st));
    hide *;
  }

  lemma RootStep(st: State, st': State)
    requires !st.finished && !st.gotEnd && st' == st.(finished := true)
    ensures Spelled(st') == Spelled(st) + [EndNode]
  {
    SpelledIs(st);
    SpelledIs(st');
    hide *;
  }

  lemma PropStep(st: State, p: Prop, st': State)
    requires !st.finished && !st.gotEnd && st.stack != []
    requires st' == st.(stack := Below(st) + [With(Top(st), Property(p))])
    ensures Spelled(st') == Spelled(st) + [PropToken(p)]
  {
    SpelledIs(st);
    SpelledIs(st');
    assert st.stack == Below(st) + [Top(st)];
    PropSpells(Below(st), Top(st), p);
    hide *;
  }

  lemma EndStep(st: State, st': State)
    requires !st.gotEnd && st' == st.(gotEnd := true)
    ensures Spelled(st') == Spelled(st) + [End]
  {
    SpelledIs(st);
    SpelledIs(st');
    hide *;
  }

  /** Every step adds its token to what is spelled, unless it is `FDT_NOP`. */
  lemma StepSpells(st: State, t: Token, last: bool, st': State)
    requires Step(st, t, last) == Next(st') && StateOk(st) && !st.gotEnd
    ensures StateOk(st') && Spelled(st') == Spelled(st) + (if t == Nop then [] else [t])
    ensures st'.gotEnd ==> last && t == End
  {
    hide Opened, DocTokens, ItemTokens, With, Spelled;
    match t
    case BeginNode(name) => BeginStep(st, name, st');
    case EndNode => if |st.stack| > 1 { CloseStep(st, st'); } else { RootStep(st, st'); }
    case PropToken(p) => PropStep(st, p, st');
    case Nop =>
    case End => EndStep(st, st');
  }

  lemma AtTheEnd(st: State, doc: Doc)
    requires StateOk(st) && Finish(st) == Tree(doc)
    ensures Spelled(st) == DocTokens(doc) + [End] && st.gotEnd
  {
    assert st.stack == [doc];
    OpenedOne(doc);
    SpelledIs(st);
    hide Opened, DocTokens, Spelled;
  }

  lemma OpenedOne(doc: Doc)
    ensures Opened([doc]) + [EndNode] == DocTokens(doc)
  {
    OpenedSnoc([], doc);
    assert [] + [doc] == [doc] && Opened([]) == [];
    hide ItemTokens, Opened;
  }

  /** A tree comes out only of its own tokens, with `FDT_END` at the very end. */
  lemma {:induction false} OnlyTrees(st: State, ts: seq<Token>, doc: Doc)
    requires StateOk(st) && !st.gotEnd && Run(st, ts) == Tree(doc)
    ensures ts != [] && ts[|ts| - 1] == End
    ensures Spelled(st) + WithoutNops(ts) == DocTokens(doc) + [End]
    decreases |ts|
  {
    var st' := Step(st, ts[0], |ts| == 1).st;
    StepSpells(st, ts[0], |ts| == 1, st');
    FirstOf(ts);
    hide Step, Spelled, DocTokens, WithoutNops;
    if |ts| == 1 {
      AtTheEnd(st', doc);
    } else {
      OnlyTrees(st', ts[1..], doc);
    }
    Carry(Spelled(st), if ts[0] == Nop then [] else [ts[0]], WithoutNops(ts[1..]));
  }

  lemma FirstOf(ts: seq<Token>)
    requires ts != []
    ensures WithoutNops(ts) == (if ts[0] == Nop then [] else [ts[0]]) + WithoutNops(ts[1..])
    ensures |ts| == 1 ==> ts[1..] == [] && WithoutNops(ts[1..]) == []
  {
  }

  lemma Carry<T>(a: seq<T>, x: seq<T>, w: seq<T>)
    ensures a + (x + w) == (a + x) + w && a + x + [] == a + x
  {
  }

  /** The parser accepts exactly the structure blocks of documents. */
  lemma ParsesIff(doc: Doc, ts: seq<Token>)
    ensures Run(BEGIN, ts) == Tree(doc) <==>
      ts != [] && ts[|ts| - 1] == End && WithoutNops(ts) == DocTokens(doc) + [End]
  {
    if Run(BEGIN, ts) == Tree(doc) {
      OnlyTrees(BEGIN, ts, doc);
    } else if ts != [] && ts[|ts| - 1] == End && WithoutNops(ts) == DocTokens(doc) + [End] {
      ParsedBack(doc, ts);
    }
  }

  /**
    With `d` nodes open and the root not complete, these tokens lead to a failure below the root. Only the
    depth counts: the first token out of place, or the end of the block, comes with two nodes open or more.
   */
  predicate FailsNested(d: nat, ts: seq<Token>)
    decreases |ts|
  {
    if ts == [] then d >= 2
    else match ts[0]
      case BeginNode(_) => FailsNested(d + 1, ts[1..])
      case EndNode => d >= 2 && FailsNested(d - 1, ts[1..])
      case PropToken(_) => d >= 1 && FailsNested(d, ts[1..])
      case Nop => FailsNested(d, ts[1..])
      case End => d >= 2
  }

  /** Once the root is complete, the parser does not panic any more. */
  lemma {:induction false} CompleteNeverHalts(st: State, ts: seq<Token>)
    requires st.finished && |st.stack| == 1
    ensures Run(st, ts) != Halted
    decreases |ts|
  {
    if ts != [] {
      match Step(st, ts[0], |ts| == 1)
      case Next(st') => CompleteNeverHalts(st', ts[1..]);
      case Stop(_) =>
    }
  }

  /** A block that ends in a nested node, and one that ends in the root. */
  lemma NestedFailure()
    ensures Run(BEGIN, [BeginNode([]), BeginNode([])]) == Halted && Run(BEGIN, [BeginNode([])]) == NoTree
  {
    var ts := [BeginNode([]), BeginNode([])];
    assert ts[1..] == [BeginNode([])] && ts[1..][1..] == [];
    NestedFailureHalts(BEGIN, ts);
    assert [BeginNode([])][1..] == [];
    NestedFailureHalts(BEGIN, [BeginNode([])]);
  }

  /** What a token does to the number of open nodes. */
  lemma StepDepth(st: State, t: Token, last: bool)
    requires !st.finished && !st.gotEnd
    ensures match Step(st, t, last)
      case Stop(outcome) =>
        && outcome == (if |st.stack| >= 2 then Halted else NoTree)
        && (t.EndNode? || t.PropToken? ==> |st.stack| == 0) && !t.BeginNode? && !t.Nop?
      case Next(st') =>
        && |st'.stack| == |st.stack| + (if t.BeginNode? then 1 else if t.EndNode? && |st.stack| > 1 then -1 else 0)
        && st'.finished == (t.EndNode? && |st.stack| == 1) && st'.gotEnd == t.End? && (t.End? ==> last)
        && (t.EndNode? || t.PropToken? ==> |st.stack| > 0)
  {
  }

  /** The parser panics exactly on a failure inside a nested node; on any other failure it returns no tree. */
  lemma {:induction false} NestedFailureHalts(st: State, ts: seq<Token>)
    requires !st.finished && !st.gotEnd
    ensures Run(st, ts) == Halted <==> FailsNested(|st.stack|, ts)
    decreases |ts|
  {
    if ts != [] {
      StepDepth(st, ts[0], |ts| == 1);
      hide Step;
      match Step(st, ts[0], |ts| == 1)
      case Next(st') =>
        if st'.finished {
          CompleteNeverHalts(st', ts[1..]);
        } else if !st'.gotEnd {
          NestedFailureHalts(st', ts[1..]);
        }
      case Stop(_) =>
    }
  }
}
