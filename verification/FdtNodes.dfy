/** What node the parser makes of tokens, told by the places of the tokens and nothing else. */
module FdtNodes {
  import opened FdtTokens

  // ----- the specification

  /** How many nodes are open before token `i`. */
  function Depth(ts: seq<Token>, i: nat): int {
    if i == 0 then 0 else Depth(ts, i - 1) + if i <= |ts| then Change(ts[i - 1]) else 0
  }

  function Change(t: Token): int {
    if t.BeginNode? then 1 else if t.EndNode? then -1 else 0
  }

  /** Token `i` is a property, or the begin of a node, with `d` nodes open. */
  predicate IsAt(ts: seq<Token>, i: nat, d: int, props: bool) {
    i < |ts| && Depth(ts, i) == d && if props then ts[i].PropToken? else ts[i].BeginNode?
  }

  /** The places of these tokens, in order. */
  function Places(ts: seq<Token>, lo: nat, hi: nat, d: int, props: bool): (q: seq<nat>)
    ensures forall i: nat :: i in q <==> lo <= i < hi && IsAt(ts, i, d, props)
    ensures forall j, k :: 0 <= j < k < |q| ==> q[j] < q[k]
    decreases hi
  {
    if hi <= lo then []
    else
      var q := Places(ts, lo, hi - 1, d, props);
      assert forall k :: 0 <= k < |q| ==> q[k] in q;
      if IsAt(ts, hi - 1, d, props) then q + [hi - 1] else q
  }

  /** The node that begins at `b` ends at `e`: it is open in between, and the only one at the end. */
  ghost predicate Spans(ts: seq<Token>, b: nat, e: nat) {
    && b < e < |ts| && ts[b].BeginNode? && ts[e].EndNode? && Depth(ts, e) == Depth(ts, b) + 1
    && Inside(ts, b, e)
  }

  /** The node that begins at `b` is open from there up to token `e`. */
  ghost predicate Inside(ts: seq<Token>, b: nat, e: nat) {
    forall i :: b < i <= e ==> Depth(ts, i) > Depth(ts, b)
  }

  /** These are the properties between `b` and `e` that belong to the node at `b`. */
  ghost predicate PropsAre(ts: seq<Token>, props: seq<Prop>, b: nat, e: nat) {
    var q := Places(ts, b + 1, e, Depth(ts, b) + 1, true);
    |q| == |props| && forall k :: 0 <= k < |q| ==> q[k] < |ts| && ts[q[k]] == PropToken(props[k])
  }

  /** The tokens from `b` to `e` are those of the node: its own properties, and its children, in order. */
  ghost predicate NodeAt(ts: seq<Token>, node: Node, b: nat, e: nat)
    decreases node, 0
  {
    && Spans(ts, b, e) && ts[b] == BeginNode(node.name) && PropsAre(ts, node.props, b, e)
    && (var q := Places(ts, b + 1, e, Depth(ts, b) + 1, false);
        && |q| == |node.children|
        && forall k :: 0 <= k < |q| ==> EndsBefore(ts, node.children[k], q[k], e))
  }

  ghost predicate EndsBefore(ts: seq<Token>, node: Node, b: nat, e: nat)
    decreases node, 1
  {
    exists f: nat :: f < e && NodeAt(ts, node, b, f)
  }

  /** The tokens are one node, `FDT_NOP` around it, and `FDT_END`. */
  ghost predicate OneNode(ts: seq<Token>, b: nat, e: nat) {
    && b < e < |ts| - 1 && ts[|ts| - 1] == End
    && (forall i :: 0 <= i < |ts| - 1 && !(b <= i <= e) ==> ts[i] == Nop)
    && (forall i :: b <= i <= e ==> ts[i] != End)
  }

  ghost predicate IsTree(ts: seq<Token>, node: Node) {
    exists b, e :: OneNode(ts, b, e) && NodeAt(ts, node, b, e)
  }

  // ----- a tree is the tree of one node only

  lemma {:induction false} SameNode(ts: seq<Token>, m: Node, n: Node, b: nat, e: nat, f: nat)
    requires NodeAt(ts, m, b, e) && NodeAt(ts, n, b, f)
    ensures m == n && e == f
    decreases m
  {
    assert Depth(ts, e + 1) == Depth(ts, b) && Depth(ts, f + 1) == Depth(ts, b);
    var q := Places(ts, b + 1, e, Depth(ts, b) + 1, false);
    forall k | 0 <= k < |q|
      ensures m.children[k] == n.children[k]
    {
      var g := EndOf(ts, m.children[k], q[k], e);
      var g' := EndOf(ts, n.children[k], q[k], f);
      SameNode(ts, m.children[k], n.children[k], q[k], g, g');
    }
    var p := Places(ts, b + 1, e, Depth(ts, b) + 1, true);
    assert forall k :: 0 <= k < |p| ==> PropToken(m.props[k]) == PropToken(n.props[k]);
  }

  lemma EndOf(ts: seq<Token>, node: Node, b: nat, e: nat) returns (f: nat)
    requires EndsBefore(ts, node, b, e)
    ensures f < e && NodeAt(ts, node, b, f)
  {
    f :| f < e && NodeAt(ts, node, b, f);
  }

  lemma OneTree(ts: seq<Token>, m: Node, n: Node)
    requires IsTree(ts, m) && IsTree(ts, n)
    ensures m == n
  {
    var b: nat, e: nat :| OneNode(ts, b, e) && NodeAt(ts, m, b, e);
    var b': nat, e': nat :| OneNode(ts, b', e') && NodeAt(ts, n, b', e');
    BeginsWith(ts, m, b, e);
    BeginsWith(ts, n, b', e');
    SameNode(ts, m, n, b, e, e') by {
      hide NodeAt;
      assert b == b';
    }
  }

  lemma BeginsWith(ts: seq<Token>, node: Node, b: nat, e: nat)
    requires NodeAt(ts, node, b, e)
    ensures b < e < |ts| && ts[b] == BeginNode(node.name)
  {
  }

  // ----- the open nodes of the parser

  /** What a token that is not refused does to the open nodes. */
  function NodesAfter(stack: seq<Node>, t: Token): seq<Node> {
    match t
    case BeginNode(name) => stack + [Node(name, [], [])]
    case EndNode =>
      if |stack| > 1 then
        var n := |stack| - 2;
        stack[..n] + [stack[n].(children := stack[n].children + [stack[n + 1]])]
      else stack
    case PropToken(p) =>
      if stack == [] then stack
      else
        var n := |stack| - 1;
        stack[..n] + [stack[n].(props := stack[n].props + [p])]
    case Nop => stack
    case End => stack
  }

  ghost predicate Mirrors(stack: seq<Node>, docs: seq<Doc>) {
    |stack| == |docs| && forall i :: 0 <= i < |docs| ==> stack[i] == NodeOf(docs[i])
  }

  lemma MirrorStep(stack: seq<Node>, st: State, t: Token, last: bool)
    requires Mirrors(stack, st.stack) && Step(st, t, last).Next?
    ensures Mirrors(NodesAfter(stack, t), Step(st, t, last).st.stack)
  {
    if t.EndNode? && |stack| > 1 {
      var n := |stack| - 2;
      var outer := Below(st);
      assert outer[n] == st.stack[n] && Top(st) == st.stack[n + 1];
      assert NodeOf(With(outer[n], Child(Top(st)))) == stack[n].(children := stack[n].children + [stack[n + 1]]);
    } else if t.PropToken? {
      var top := stack[|stack| - 1];
      assert NodeOf(With(Top(st), Property(t.prop))) == top.(props := top.props + [t.prop]);
    }
  }

  /**
    A node that begins at `b` and is open before token `i`, with all that came for it so far; `inner` is where a
    child begins that is open too.
   */
  ghost predicate OpenAt(ts: seq<Token>, node: Node, b: nat, i: nat, inner: seq<nat>) {
    && b < i <= |ts| && ts[b] == BeginNode(node.name) && PropsAre(ts, node.props, b, i)
    && Inside(ts, b, i) && ChildrenAre(ts, node.children, b, i, inner)
  }

  ghost predicate ChildrenAre(ts: seq<Token>, children: seq<Node>, b: nat, i: nat, inner: seq<nat>) {
    var q := Places(ts, b + 1, i, Depth(ts, b) + 1, false);
    && |q| == |children| + |inner| && q[|children|..] == inner
    && forall k :: 0 <= k < |children| ==> EndsBefore(ts, children[k], q[k], i)
  }

  /** Where the child of the node at level `k` begins that is open, if one is. */
  function Inner(bs: seq<nat>, k: nat): seq<nat> {
    if k + 1 < |bs| then [bs[k + 1]] else []
  }

  /** The nodes that are open before token `i` begin at `bs`, and around the outermost there is only `FDT_NOP`. */
  ghost predicate OpenNodes(ts: seq<Token>, i: nat, stack: seq<Node>, bs: seq<nat>) {
    && i <= |ts| && |bs| == |stack| == Depth(ts, i)
    && (forall k :: 0 <= k < |bs| ==> LevelOpen(ts, i, stack[k], bs, k)) && OnlyNops(ts, i, bs)
  }

  /** The root is complete. */
  ghost predicate RootClosed(ts: seq<Token>, i: nat, root: Node, b: nat, e: nat) {
    && NodeAt(ts, root, b, e) && b < e < i <= |ts| && (forall j :: 0 <= j < i && !(b <= j <= e) ==> ts[j] == Nop)
    && (forall j :: 0 <= j < i ==> ts[j] != End)
  }

  // ----- one more token

  lemma NextDepth(ts: seq<Token>, i: nat)
    requires i < |ts|
    ensures Depth(ts, i + 1) == Depth(ts, i) + Change(ts[i])
  {
  }

  lemma NextPlace(ts: seq<Token>, lo: nat, i: nat, d: int, props: bool)
    requires lo <= i
    ensures Places(ts, lo, i + 1, d, props)
         == Places(ts, lo, i, d, props) + if IsAt(ts, i, d, props) then [i] else []
  {
  }

  lemma PropsStay(ts: seq<Token>, props: seq<Prop>, b: nat, i: nat)
    requires PropsAre(ts, props, b, i) && b < i && !IsAt(ts, i, Depth(ts, b) + 1, true)
    ensures PropsAre(ts, props, b, i + 1)
  {
    hide Places, Depth;
    NextPlace(ts, b + 1, i, Depth(ts, b) + 1, true);
  }

  lemma PropsGrow(ts: seq<Token>, props: seq<Prop>, b: nat, i: nat, p: Prop)
    requires PropsAre(ts, props, b, i) && b < i < |ts| && ts[i] == PropToken(p) && Depth(ts, i) == Depth(ts, b) + 1
    ensures PropsAre(ts, props + [p], b, i + 1)
  {
    hide Places, Depth;
    NextPlace(ts, b + 1, i, Depth(ts, b) + 1, true);
  }

  lemma ChildrenStay(ts: seq<Token>, children: seq<Node>, b: nat, i: nat, inner: seq<nat>)
    requires ChildrenAre(ts, children, b, i, inner) && b < i && !IsAt(ts, i, Depth(ts, b) + 1, false)
    ensures ChildrenAre(ts, children, b, i + 1, inner)
  {
    hide ChildrenAre, Places, Depth, NodeAt;
    NextPlace(ts, b + 1, i, Depth(ts, b) + 1, false);
    ChildrenIs(ts, children, b, i, inner);
    ChildrenIs(ts, children, b, i + 1, inner);
    EndBefore(ts, children, Places(ts, b + 1, i, Depth(ts, b) + 1, false)[..|children|], i);
    hide EachEnds;
  }

  lemma ChildrenIs(ts: seq<Token>, children: seq<Node>, b: nat, i: nat, inner: seq<nat>)
    ensures var q := Places(ts, b + 1, i, Depth(ts, b) + 1, false);
      ChildrenAre(ts, children, b, i, inner) <==>
        |q| == |children| + |inner| && q[|children|..] == inner && EachEnds(ts, children, q[..|children|], i)
  {
  }

  /** The children that begin at these places end before `e`. */
  ghost predicate EachEnds(ts: seq<Token>, children: seq<Node>, q: seq<nat>, e: nat) {
    |q| == |children| && forall k :: 0 <= k < |children| ==> EndsBefore(ts, children[k], q[k], e)
  }

  lemma EndBefore(ts: seq<Token>, children: seq<Node>, q: seq<nat>, i: nat)
    requires EachEnds(ts, children, q, i)
    ensures EachEnds(ts, children, q, i + 1)
  {
    forall k | 0 <= k < |children|
      ensures EndsBefore(ts, children[k], q[k], i + 1)
    {
      assert EndsBefore(ts, children[k], q[k], i);
    }
  }

  lemma OneMoreEnds(ts: seq<Token>, children: seq<Node>, q: seq<nat>, i: nat, child: Node, c: nat)
    requires EachEnds(ts, children, q, i) && NodeAt(ts, child, c, i)
    ensures EachEnds(ts, children + [child], q + [c], i + 1)
  {
    EndBefore(ts, children, q, i);
    assert EndsBefore(ts, child, c, i + 1);
    hide EndsBefore;
  }

  lemma ChildrenBegin(ts: seq<Token>, children: seq<Node>, b: nat, i: nat)
    requires ChildrenAre(ts, children, b, i, []) && b < i && IsAt(ts, i, Depth(ts, b) + 1, false)
    ensures ChildrenAre(ts, children, b, i + 1, [i])
  {
    hide ChildrenAre, Places, Depth, NodeAt;
    NextPlace(ts, b + 1, i, Depth(ts, b) + 1, false);
    var q := Places(ts, b + 1, i, Depth(ts, b) + 1, false);
    ChildrenIs(ts, children, b, i, []);
    ChildrenIs(ts, children, b, i + 1, [i]);
    EndBefore(ts, children, q, i);
    hide EachEnds;
    assert q[..|children|] == q && (q + [i])[..|children|] == q;
  }

  lemma ChildrenEnd(ts: seq<Token>, children: seq<Node>, b: nat, i: nat, c: nat, child: Node)
    requires ChildrenAre(ts, children, b, i, [c]) && b < i && !IsAt(ts, i, Depth(ts, b) + 1, false)
    requires NodeAt(ts, child, c, i)
    ensures ChildrenAre(ts, children + [child], b, i + 1, [])
  {
    hide ChildrenAre, Places, Depth, NodeAt;
    NextPlace(ts, b + 1, i, Depth(ts, b) + 1, false);
    var q := Places(ts, b + 1, i, Depth(ts, b) + 1, false);
    ChildrenIs(ts, children, b, i, [c]);
    ChildrenIs(ts, children + [child], b, i + 1, []);
    OneMoreEnds(ts, children, q[..|children|], i, child, c);
    hide EachEnds;
    assert q == q[..|children|] + [c];
  }

  /** A token that is not for this node changes nothing of it. */
  lemma StillOpen(ts: seq<Token>, node: Node, b: nat, i: nat, inner: seq<nat>)
    requires OpenAt(ts, node, b, i, inner) && i < |ts| && Depth(ts, i + 1) > Depth(ts, b)
    requires ts[i].BeginNode? || ts[i].PropToken? ==> Depth(ts, i) != Depth(ts, b) + 1
    ensures OpenAt(ts, node, b, i + 1, inner)
  {
    hide PropsAre, ChildrenAre, Depth;
    PropsStay(ts, node.props, b, i);
    ChildrenStay(ts, node.children, b, i, inner);
  }

  /** A property of the node comes last. */
  lemma OneMoreProp(ts: seq<Token>, node: Node, b: nat, i: nat, p: Prop)
    requires OpenAt(ts, node, b, i, []) && i < |ts| && ts[i] == PropToken(p) && Depth(ts, i) == Depth(ts, b) + 1
    ensures OpenAt(ts, node.(props := node.props + [p]), b, i + 1, [])
  {
    NextDepth(ts, i);
    hide PropsAre, ChildrenAre, Depth;
    PropsGrow(ts, node.props, b, i, p);
    ChildrenStay(ts, node.children, b, i, []);
  }

  /** A child begins. */
  lemma ChildBegins(ts: seq<Token>, node: Node, b: nat, i: nat)
    requires OpenAt(ts, node, b, i, []) && i < |ts| && ts[i].BeginNode? && Depth(ts, i) == Depth(ts, b) + 1
    ensures OpenAt(ts, node, b, i + 1, [i])
  {
    NextDepth(ts, i);
    hide PropsAre, ChildrenAre, Depth;
    PropsStay(ts, node.props, b, i);
    ChildrenBegin(ts, node.children, b, i);
  }

  /** And has nothing yet. */
  lemma NewNode(ts: seq<Token>, name: Text, i: nat)
    requires i < |ts| && ts[i] == BeginNode(name)
    ensures OpenAt(ts, Node(name, [], []), i, i + 1, [])
  {
    NextDepth(ts, i);
    hide NodeAt;
  }

  /** The node ends. */
  lemma NodeEnds(ts: seq<Token>, node: Node, b: nat, i: nat)
    requires OpenAt(ts, node, b, i, []) && i < |ts| && ts[i] == EndNode && Depth(ts, i) == Depth(ts, b) + 1
    ensures NodeAt(ts, node, b, i)
  {
    var q := Places(ts, b + 1, i, Depth(ts, b) + 1, false);
    ChildrenIs(ts, node.children, b, i, []);
    assert q[..|node.children|] == q;
    hide Places, Depth, PropsAre, ChildrenAre;
  }

  /** A child has ended, and comes last. */
  lemma ChildEnds(ts: seq<Token>, node: Node, b: nat, i: nat, c: nat, child: Node)
    requires OpenAt(ts, node, b, i, [c]) && i < |ts| && ts[i] == EndNode && NodeAt(ts, child, c, i)
    requires Depth(ts, i) > Depth(ts, b) + 1
    ensures OpenAt(ts, Node(node.name, node.props, node.children + [child]), b, i + 1, [])
  {
    NextDepth(ts, i);
    OpenIs(ts, node, b, i, [c]);
    NotAt(ts, i, Depth(ts, b) + 1);
    hide *;
    StillInside(ts, b, i);
    PropsStay(ts, node.props, b, i);
    ChildrenEnd(ts, node.children, b, i, c, child);
    IsOpen(ts, node.name, node.props, node.children + [child], b, i + 1, []);
  }

  lemma IsOpen(ts: seq<Token>, name: Text, props: seq<Prop>, children: seq<Node>, b: nat, i: nat, inner: seq<nat>)
    requires b < i <= |ts| && ts[b] == BeginNode(name) && PropsAre(ts, props, b, i)
    requires Inside(ts, b, i) && ChildrenAre(ts, children, b, i, inner)
    ensures OpenAt(ts, Node(name, props, children), b, i, inner)
  {
    hide PropsAre, ChildrenAre, Inside;
  }

  lemma StillInside(ts: seq<Token>, b: nat, i: nat)
    requires Inside(ts, b, i) && Depth(ts, i + 1) > Depth(ts, b)
    ensures Inside(ts, b, i + 1)
  {
  }

  lemma NotAt(ts: seq<Token>, i: nat, d: int)
    requires i < |ts| && ts[i] == EndNode
    ensures !IsAt(ts, i, d, true) && !IsAt(ts, i, d, false) && Change(ts[i]) == -1
  {
  }

  lemma OpenIs(ts: seq<Token>, node: Node, b: nat, i: nat, inner: seq<nat>)
    ensures OpenAt(ts, node, b, i, inner) <==>
      && b < i <= |ts| && ts[b] == BeginNode(node.name) && PropsAre(ts, node.props, b, i)
      && Inside(ts, b, i) && ChildrenAre(ts, node.children, b, i, inner)
  {
    hide PropsAre, ChildrenAre, Depth;
  }

  // ----- the run of the parser

  /** Every token that is not refused keeps the open nodes open. */
  lemma StepOpens(ts: seq<Token>, i: nat, stack: seq<Node>, bs: seq<nat>) returns (bs': seq<nat>)
    requires OpenNodes(ts, i, stack, bs) && i < |ts| && ts[i] != End
    requires ts[i].EndNode? ==> |stack| > 1
    requires ts[i].PropToken? ==> |stack| > 0
    ensures OpenNodes(ts, i + 1, NodesAfter(stack, ts[i]), bs')
  {
    bs' := BeginsAfter(bs, ts[i], i);
    NextDepth(ts, i);
    AfterLength(stack, ts[i]);
    BeginsLength(bs, ts[i], i);
    Around(ts, i, stack, bs);
    forall k | 0 <= k < |bs'|
      ensures k < |NodesAfter(stack, ts[i])| && LevelOpen(ts, i + 1, NodesAfter(stack, ts[i])[k], bs', k)
    {
      LevelAfter(ts, i, stack, bs, k);
    }
    hide OpenAt, NodesAfter, Depth, Change, BeginsAfter, OnlyNops;
  }

  /** The node at level `k` of the stack is open. */
  ghost predicate LevelOpen(ts: seq<Token>, i: nat, node: Node, bs: seq<nat>, k: nat)
    requires k < |bs|
  {
    Depth(ts, bs[k]) == k && OpenAt(ts, node, bs[k], i, Inner(bs, k))
  }

  /** Before the outermost open node there is only `FDT_NOP`, and nowhere so far is `FDT_END`. */
  ghost predicate OnlyNops(ts: seq<Token>, i: nat, bs: seq<nat>)
    requires i <= |ts|
  {
    && (forall j :: 0 <= j < i && (bs == [] || j < bs[0]) ==> ts[j] == Nop) && (forall j :: 0 <= j < i ==> ts[j] != End)
  }

  lemma Around(ts: seq<Token>, i: nat, stack: seq<Node>, bs: seq<nat>)
    requires OpenNodes(ts, i, stack, bs) && i < |ts| && ts[i] != End
    requires ts[i].EndNode? ==> |stack| > 1
    requires ts[i].PropToken? ==> |stack| > 0
    ensures |bs| == |stack| == Depth(ts, i) && OnlyNops(ts, i + 1, BeginsAfter(bs, ts[i], i))
  {
    if bs != [] {
      OpenLevel(ts, i, stack, bs, 0);
      OpenIs(ts, stack[0], bs[0], i, Inner(bs, 0));
    }
    hide LevelOpen, Depth, OpenAt, OnlyNops;
    NopsAfter(ts, i, bs, BeginsAfter(bs, ts[i], i));
  }

  lemma NopsAfter(ts: seq<Token>, i: nat, bs: seq<nat>, bs': seq<nat>)
    requires i < |ts| && ts[i] != End && OnlyNops(ts, i, bs)
    requires if bs == [] then bs' == [i] || (bs' == [] && ts[i] == Nop) else bs[0] < i && bs' != [] && bs'[0] == bs[0]
    ensures OnlyNops(ts, i + 1, bs')
  {
  }

  /** Where the open nodes begin after a token. */
  function BeginsAfter(bs: seq<nat>, t: Token, i: nat): seq<nat>
    requires t.EndNode? ==> |bs| > 0
  {
    if t.BeginNode? then bs + [i] else if t.EndNode? then bs[..|bs| - 1] else bs
  }

  lemma AfterLength(stack: seq<Node>, t: Token)
    requires t.EndNode? ==> |stack| > 1
    ensures |NodesAfter(stack, t)| == |stack| + Change(t)
  {
  }

  /** What a token leaves at level `k` of the stack. */
  lemma AfterAt(stack: seq<Node>, bs: seq<nat>, t: Token, i: nat, k: nat)
    requires |stack| == |bs| && (t.EndNode? ==> |stack| > 1) && k < |BeginsAfter(bs, t, i)|
    ensures k < |NodesAfter(stack, t)| == |BeginsAfter(bs, t, i)| && (k < |bs| ==> BeginsAfter(bs, t, i)[k] == bs[k])
    ensures var node, inner := NodesAfter(stack, t)[k], Inner(BeginsAfter(bs, t, i), k);
      if k == |bs| then t.BeginNode? && node == Node(t.name, [], []) && inner == [] && BeginsAfter(bs, t, i)[k] == i
      else if k == |bs| - 1 && t.BeginNode? then node == stack[k] && inner == [i]
      else if k == |bs| - 1 && t.PropToken? then node == stack[k].(props := stack[k].props + [t.prop]) && inner == []
      else if k == |bs| - 2 && t.EndNode? then
        && node == Node(stack[k].name, stack[k].props, stack[k].children + [stack[k + 1]]) && inner == []
      else node == stack[k] && inner == Inner(bs, k)
  {
  }

  /** What the token does to the node at level `k`. */
  lemma LevelAfter(ts: seq<Token>, i: nat, stack: seq<Node>, bs: seq<nat>, k: nat)
    requires OpenNodes(ts, i, stack, bs) && i < |ts|
    requires ts[i].EndNode? ==> |stack| > 1
    requires ts[i].PropToken? ==> |stack| > 0
    requires k < |BeginsAfter(bs, ts[i], i)|
    ensures var stack', bs' := NodesAfter(stack, ts[i]), BeginsAfter(bs, ts[i], i);
      k < |stack'| && Depth(ts, bs'[k]) == k && OpenAt(ts, stack'[k], bs'[k], i + 1, Inner(bs', k))
  {
    var n, t := |bs|, ts[i];
    NextDepth(ts, i);
    AfterAt(stack, bs, t, i, k);
    BeginsLength(bs, t, i);
    if k == n {
      NewNode(ts, t.name, i);
      hide *;
    } else {
      OpenLevel(ts, i, stack, bs, k);
      hide *;
      if k == n - 1 && t.BeginNode? {
        ChildBegins(ts, stack[k], bs[k], i);
      } else if k == n - 1 && t.PropToken? {
        OneMoreProp(ts, stack[k], bs[k], i, t.prop);
      } else if k == n - 2 && t.EndNode? {
        OpenLevel(ts, i, stack, bs, k + 1);
        NodeEnds(ts, stack[k + 1], bs[k + 1], i);
        ChildEnds(ts, stack[k], bs[k], i, bs[k + 1], stack[k + 1]);
      } else {
        StillOpen(ts, stack[k], bs[k], i, Inner(bs, k));
      }
    }
  }

  lemma BeginsLength(bs: seq<nat>, t: Token, i: nat)
    requires t.EndNode? ==> |bs| > 0
    ensures |BeginsAfter(bs, t, i)| == |bs| + Change(t) && -1 <= Change(t) <= 1
    ensures Change(t) == if t.BeginNode? then 1 else if t.EndNode? then -1 else 0
  {
  }

  lemma OpenLevel(ts: seq<Token>, i: nat, stack: seq<Node>, bs: seq<nat>, k: nat)
    requires OpenNodes(ts, i, stack, bs) && k < |bs|
    ensures |bs| == |stack| == Depth(ts, i) && i <= |ts| && Depth(ts, bs[k]) == k
    ensures OpenAt(ts, stack[k], bs[k], i, Inner(bs, k))
    ensures k == |bs| - 1 ==> Inner(bs, k) == []
    ensures k == |bs| - 2 ==> Inner(bs, k) == [bs[k + 1]]
  {
    hide OpenAt;
    assert LevelOpen(ts, i, stack[k], bs, k);
  }

  /** The root ends. */
  lemma RootEnds(ts: seq<Token>, i: nat, stack: seq<Node>, bs: seq<nat>)
    requires OpenNodes(ts, i, stack, bs) && i < |ts| && ts[i] == EndNode && |stack| == 1
    ensures RootClosed(ts, i + 1, stack[0], bs[0], i)
  {
    assert Inner(bs, 0) == [];
    NodeEnds(ts, stack[0], bs[0], i);
    hide OpenAt, NodeAt;
    assert OpenAt(ts, stack[0], bs[0], i, []);
  }

  lemma NothingOpen(ts: seq<Token>)
    ensures OpenNodes(ts, 0, [], [])
  {
  }

  /** Once the root is complete. */
  lemma {:induction false} RunComplete(ts: seq<Token>, i: nat, st: State, root: Node, b: nat, e: nat, doc: Doc)
    requires RootClosed(ts, i, root, b, e) && st.finished && |st.stack| == 1 && NodeOf(st.stack[0]) == root
    requires !st.gotEnd
    requires Run(st, ts[i..]) == Tree(doc)
    ensures NodeOf(doc) == root && OneNode(ts, b, e) && NodeAt(ts, root, b, e)
    decreases |ts| - i
  {
    hide NodeAt;
    assert i < |ts| && ts[i..][0] == ts[i] && ts[i..][1..] == ts[i + 1..];
    if ts[i] == End {
      assert ts[i + 1..] == [];
    } else {
      RunComplete(ts, i + 1, st, root, b, e, doc);
    }
  }

  /** Where the first token of a run leads that ends in a tree. */
  lemma FirstStep(ts: seq<Token>, i: nat, st: State, doc: Doc)
    requires i <= |ts| && !st.finished && !st.gotEnd && Run(st, ts[i..]) == Tree(doc)
    ensures i < |ts| && ts[i] != End
    ensures var r := Step(st, ts[i], i + 1 == |ts|); r.Next? && Run(r.st, ts[i + 1..]) == Tree(doc)
    ensures ts[i].EndNode? || ts[i].PropToken? ==> st.stack != []
    ensures var st' := Step(st, ts[i], i + 1 == |ts|).st;
      !st'.gotEnd && (st'.finished <==> ts[i] == EndNode && |st.stack| == 1)
      && (st'.finished ==> st' == st.(finished := true))
  {
    assert i < |ts| && ts[i..][0] == ts[i] && ts[i..][1..] == ts[i + 1..];
  }

  /** While nodes are open. */
  lemma {:induction false} RunOpen(ts: seq<Token>, i: nat, st: State, stack: seq<Node>, bs: seq<nat>, doc: Doc)
    requires OpenNodes(ts, i, stack, bs) && !st.finished && !st.gotEnd && Mirrors(stack, st.stack)
    requires Run(st, ts[i..]) == Tree(doc)
    ensures IsTree(ts, NodeOf(doc))
    decreases |ts| - i
  {
    SameLength(ts, i, stack, bs, st);
    FirstStep(ts, i, st, doc);
    hide *;
    var st' := Step(st, ts[i], i + 1 == |ts|).st;
    if st'.finished {
      RootEnds(ts, i, stack, bs);
      RootMirrored(stack, st);
      RunComplete(ts, i + 1, st', stack[0], bs[0], i, doc);
      TreeAt(ts, stack[0], bs[0], i);
    } else {
      MirrorStep(stack, st, ts[i], i + 1 == |ts|);
      var bs' := StepOpens(ts, i, stack, bs);
      RunOpen(ts, i + 1, st', NodesAfter(stack, ts[i]), bs', doc);
    }
  }

  lemma SameLength(ts: seq<Token>, i: nat, stack: seq<Node>, bs: seq<nat>, st: State)
    requires OpenNodes(ts, i, stack, bs) && Mirrors(stack, st.stack)
    ensures |stack| == |st.stack| == |bs| && i <= |ts|
  {
    hide Depth, LevelOpen, OnlyNops, NodeOf;
  }

  lemma RootMirrored(stack: seq<Node>, st: State)
    requires Mirrors(stack, st.stack) && |stack| == 1
    ensures |st.stack| == 1 && NodeOf(st.stack[0]) == stack[0]
  {
    hide NodeOf;
  }

  lemma TreeAt(ts: seq<Token>, node: Node, b: nat, e: nat)
    requires OneNode(ts, b, e)
    ensures NodeAt(ts, node, b, e) ==> IsTree(ts, node)
  {
  }

  /** A tree that comes out is the one that the tokens spell. */
  lemma TreeIsSpelled(ts: seq<Token>, doc: Doc)
    requires Run(BEGIN, ts) == Tree(doc)
    ensures IsTree(ts, NodeOf(doc))
  {
    NothingOpen(ts);
    assert ts[0..] == ts;
    RunOpen(ts, 0, BEGIN, [], [], doc);
  }

  // ----- and every node is parsed

  lemma {:induction false} NopsAreFlat(ts: seq<Token>, i: nat)
    requires i <= |ts| && forall j :: 0 <= j < i ==> ts[j] == Nop
    ensures Depth(ts, i) == 0
  {
    if i > 0 {
      NopsAreFlat(ts, i - 1);
    }
  }

  /** How many nodes are open when the parser comes to token `i`; the root stays when it is complete. */
  ghost predicate Stands(ts: seq<Token>, i: nat, st: State, b: nat, e: nat) {
    && (st.finished <==> i > e) && !st.gotEnd
    && |st.stack| == if i <= b then 0 else if i <= e then Depth(ts, i) else 1
  }

  lemma StandsNext(ts: seq<Token>, i: nat, st: State, b: nat, e: nat)
    requires OneNode(ts, b, e) && Spans(ts, b, e) && Depth(ts, b) == 0 && i < |ts| - 1 && Stands(ts, i, st, b, e)
    ensures ts[i] != End && (i < b || i > e ==> ts[i] == Nop)
    ensures var r := Step(st, ts[i], false); r.Next? && Stands(ts, i + 1, r.st, b, e)
  {
    NextDepth(ts, i);
    assert b < i + 1 <= e ==> Depth(ts, i + 1) > 0;
    hide Depth;
  }

  lemma {:induction false} RunAccepts(ts: seq<Token>, i: nat, st: State, b: nat, e: nat)
    requires OneNode(ts, b, e) && Spans(ts, b, e) && Depth(ts, b) == 0 && i < |ts| && Stands(ts, i, st, b, e)
    ensures Run(st, ts[i..]).Tree?
    decreases |ts| - i
  {
    assert ts[i..][0] == ts[i] && ts[i..][1..] == ts[i + 1..];
    hide Spans, Depth;
    if i < |ts| - 1 {
      StandsNext(ts, i, st, b, e);
      RunAccepts(ts, i + 1, Step(st, ts[i], false).st, b, e);
    } else {
      assert ts[i + 1..] == [];
    }
  }

  /** The parser accepts exactly the tokens of one node, and returns that node. */
  lemma ParsesNodeIff(ts: seq<Token>, node: Node)
    ensures IsTree(ts, node) <==> Run(BEGIN, ts).Tree? && NodeOf(Run(BEGIN, ts).doc) == node
  {
    if IsTree(ts, node) {
      var b: nat, e: nat :| OneNode(ts, b, e) && NodeAt(ts, node, b, e);
      NopsAreFlat(ts, b);
      assert ts[0..] == ts;
      RunAccepts(ts, 0, BEGIN, b, e);
    }
    hide NodeOf, IsTree;
    if Run(BEGIN, ts).Tree? {
      var doc := Run(BEGIN, ts).doc;
      TreeIsSpelled(ts, doc);
      if IsTree(ts, node) {
        OneTree(ts, node, NodeOf(doc));
      }
    }
  }
}
