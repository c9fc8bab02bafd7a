/** `devicetree_parse_structure_block` of `devicetree.c`, on the bytes of physical memory. */
module FdtParser {
  import opened Words
  import opened FdtTokens
  import opened FdtNodes

  /** Addresses from here on do not exist: `paddr_offset` panics. */
  const TOP_56: nat := 0x100_0000_0000_0000

  /** Where the devicetree is, and where in it the strings block is, from its header. */
  datatype Header = Header(start: nat, offStrings: nat)

  function U32(mem: seq<Byte>, a: nat): (r: nat)
    requires a + 4 <= |mem|
    ensures r < 0x1_0000_0000
  {
    var b0: int, b1: int, b2: int, b3: int := mem[a], mem[a + 1], mem[a + 2], mem[a + 3];
    b0 * 0x100_0000 + b1 * 0x1_0000 + b2 * 0x100 + b3
  }

  /** How many bytes come before the next zero byte; -1 if memory ends before. */
  function NameLength(mem: seq<Byte>, a: nat): (r: int)
    ensures -1 <= r && (r >= 0 ==> a + r < |mem|)
    decreases |mem| - a
  {
    if a >= |mem| then -1
    else if mem[a] == 0 then 0
    else var r := NameLength(mem, a + 1); if r < 0 then -1 else r + 1
  }

  function Align4(a: nat): nat { (a + 3) / 4 * 4 }

  /**
    A token and the place after it; or no memory for what it brings; or `Broken`, which is a panic: a read
    outside of memory, or a token of an unknown type.
   */
  datatype Lexed = Lexeme(token: Token, next: nat) | NoMemory | Broken

  function ReadBegin(mem: seq<Byte>, a: nat, granted: bool): Lexed {
    var n := NameLength(mem, a);
    if n < 0 then Broken
    else if !granted then NoMemory
    else if a + n + 4 >= TOP_56 then Broken
    else Lexeme(BeginNode(mem[a..a + n]), Align4(a + n + 1))
  }

  function ReadProp(mem: seq<Byte>, h: Header, a: nat, granted: bool): Lexed {
    if a + 8 > |mem| then Broken
    else
      var valueLen, nameOff, v := U32(mem, a), U32(mem, a + 4), a + 8;
      PropAt(mem, h.start + (h.offStrings + nameOff) % 0x1_0000_0000, v, valueLen, granted)
  }

  /** The property with its name at `nameStart` and its value at `v`. */
  function PropAt(mem: seq<Byte>, nameStart: nat, v: nat, valueLen: nat, granted: bool): Lexed {
    var n := NameLength(mem, nameStart);
    if n < 0 || v + valueLen + 3 >= TOP_56 then Broken
    else if !granted then NoMemory
    else if v + valueLen > |mem| then Broken
    else Lexeme(PropToken(Prop(mem[nameStart..nameStart + n], mem[v..v + valueLen])), Align4(v + valueLen))
  }

  /** The token at `here`; `granted` says whether `alloc` succeeds on what the token needs. */
  function ReadToken(mem: seq<Byte>, h: Header, here: nat, granted: bool): (r: Lexed)
    requires here + 4 <= |mem|
    ensures r.Lexeme? ==> r.next >= here + 4
  {
    var a := here + 4;
    match U32(mem, here)
    case 1 => ReadBegin(mem, a, granted)
    case 2 => Lexeme(EndNode, a)
    case 3 => ReadProp(mem, h, a, granted)
    case 4 => Lexeme(Nop, a)
    case 9 => Lexeme(End, a)
    case _ => Broken
  }

  /** The parser refuses a token in some places before it looks further than at its type. */
  predicate Refused(st: State, kind: nat) {
    (kind == 1 && st.finished) || (kind == 3 && (st.stack == [] || st.finished))
  }

  /** `memory` says at which tokens the allocations succeed. */
  function ParseFrom(mem: seq<Byte>, h: Header, here: nat, end: nat, st: State, memory: nat -> bool): Outcome
    decreases if here < |mem| then |mem| - here else 0
  {
    if here == end then Finish(st)
    else if here + 4 > |mem| then Halted
    else if Refused(st, U32(mem, here)) then Fail(st)
    else match ReadToken(mem, h, here, memory(here))
      case Broken => Halted
      case NoMemory => Fail(st)
      case Lexeme(t, next) =>
        match Step(st, t, next == end)
        case Next(st') => ParseFrom(mem, h, next, end, st', memory)
        case Stop(outcome) => outcome
  }

  // ----- any memory content

  /** Reading token after token from `here` on ends at `end` and gives these. */
  ghost predicate Lexes(mem: seq<Byte>, h: Header, here: nat, end: nat, ts: seq<Token>, memory: nat -> bool)
    decreases |ts|
  {
    if ts == [] || here == end then ts == [] && here == end
    else
      here + 4 <= |mem| &&
      match ReadToken(mem, h, here, memory(here))
      case Lexeme(t, next) => t == ts[0] && Lexes(mem, h, next, end, ts[1..], memory)
      case _ => false
  }

  lemma RefusedStops(mem: seq<Byte>, h: Header, here: nat, granted: bool, st: State, last: bool)
    requires here + 4 <= |mem| && Refused(st, U32(mem, here))
    ensures var r := ReadToken(mem, h, here, granted); r.Lexeme? ==> Step(st, r.token, last) == Stop(Fail(st))
  {
  }

  /** Where the bytes read as tokens, the parser does what its machine does on the tokens. */
  lemma {:induction false} LexedRun(mem: seq<Byte>, h: Header, here: nat, end: nat, st: State, ts: seq<Token>,
                                    memory: nat -> bool)
    requires Lexes(mem, h, here, end, ts, memory)
    ensures ParseFrom(mem, h, here, end, st, memory) == Run(st, ts)
    decreases |ts|
  {
    hide ReadToken, U32, Refused, Step, Fail, Finish;
    if ts != [] {
      var next := ReadToken(mem, h, here, memory(here)).next;
      assert (next == end) == (|ts| == 1);
      if Refused(st, U32(mem, here)) {
        RefusedStops(mem, h, here, memory(here), st, |ts| == 1);
      } else {
        match Step(st, ts[0], |ts| == 1)
        case Next(st') => LexedRun(mem, h, next, end, st', ts[1..], memory);
        case Stop(_) =>
      }
    }
  }

  /** A tree comes out only of bytes that read as tokens all the way to the end of the block. */
  lemma {:induction false} TreeLexes(mem: seq<Byte>, h: Header, here: nat, end: nat, st: State, memory: nat -> bool,
                                     doc: Doc)
    returns (ts: seq<Token>)
    requires ParseFrom(mem, h, here, end, st, memory) == Tree(doc)
    ensures Lexes(mem, h, here, end, ts, memory)
    decreases if here < |mem| then |mem| - here else 0
  {
    hide ReadToken, U32, Refused, Finish;
    if here == end {
      ts := [];
    } else {
      var r := ReadToken(mem, h, here, memory(here));
      var rest := TreeLexes(mem, h, r.next, end, Step(st, r.token, r.next == end).st, memory, doc);
      ts := [r.token] + rest;
      assert ts[1..] == rest;
    }
  }

  /**
    For every memory content: the parser returns a document if and only if the bytes read as tokens up to the
    end of the block, all allocations on the way succeed, and the tokens are the document's own, balanced, with
    `FDT_END` last and `FDT_NOP` anywhere before it.
   */
  lemma ParsesBytesIff(mem: seq<Byte>, h: Header, here: nat, end: nat, memory: nat -> bool, doc: Doc)
    ensures ParseFrom(mem, h, here, end, BEGIN, memory) == Tree(doc) <==>
      exists ts :: Lexes(mem, h, here, end, ts, memory) &&
        ts != [] && ts[|ts| - 1] == End && WithoutNops(ts) == DocTokens(doc) + [End]
  {
    hide *;
    if ParseFrom(mem, h, here, end, BEGIN, memory) == Tree(doc) {
      var ts := TreeLexes(mem, h, here, end, BEGIN, memory, doc);
      LexedRun(mem, h, here, end, BEGIN, ts, memory);
      ParsesIff(doc, ts);
    }
    if ts :| (Lexes(mem, h, here, end, ts, memory) &&
              ts != [] && ts[|ts| - 1] == End && WithoutNops(ts) == DocTokens(doc) + [End]) {
      LexedRun(mem, h, here, end, BEGIN, ts, memory);
      ParsesIff(doc, ts);
    }
  }

  /**
    Where the parser panics, told by nothing but the number `d` of open nodes and whether the root is complete:
    at bytes that it cannot read, and at any failure with two nodes open or more.
   */
  predicate HaltsFrom(mem: seq<Byte>, h: Header, here: nat, end: nat, d: nat, complete: bool, memory: nat -> bool)
    decreases if here < |mem| then |mem| - here else 0
  {
    if here == end then d >= 2
    else if here + 4 > |mem| then true
    else if (U32(mem, here) == 1 && complete) || (U32(mem, here) == 3 && (d == 0 || complete)) then d >= 2
    else match ReadToken(mem, h, here, memory(here))
      case Broken => true
      case NoMemory => d >= 2
      case Lexeme(t, next) =>
        match t
        case BeginNode(_) => HaltsFrom(mem, h, next, end, d + 1, complete, memory)
        case EndNode =>
          d > 0 && !complete && HaltsFrom(mem, h, next, end, if d > 1 then d - 1 else d, d == 1, memory)
        case PropToken(_) => HaltsFrom(mem, h, next, end, d, complete, memory)
        case Nop => HaltsFrom(mem, h, next, end, d, complete, memory)
        case End => d >= 2
  }

  lemma {:induction false} HaltsIff(mem: seq<Byte>, h: Header, here: nat, end: nat, st: State, memory: nat -> bool)
    requires st.finished ==> |st.stack| == 1
    ensures ParseFrom(mem, h, here, end, st, memory) == Halted <==>
      HaltsFrom(mem, h, here, end, |st.stack|, st.finished, memory)
    decreases if here < |mem| then |mem| - here else 0
  {
    if here != end && here + 4 <= |mem| && !Refused(st, U32(mem, here)) {
      var r := ReadToken(mem, h, here, memory(here));
      KindOf(mem, h, here, memory(here));
      hide ReadToken, U32;
      if r.Lexeme? {
        match Step(st, r.token, r.next == end)
        case Next(st') => HaltsIff(mem, h, r.next, end, st', memory);
        case Stop(_) =>
      }
    }
  }

  lemma KindOf(mem: seq<Byte>, h: Header, here: nat, granted: bool)
    requires here + 4 <= |mem|
    ensures var r := ReadToken(mem, h, here, granted);
      r.Lexeme? ==> (r.token.BeginNode? ==> U32(mem, here) == 1) && (r.token.PropToken? ==> U32(mem, here) == 3)
  {
  }

  // ----- the bytes of a token, section 5.4 of the Devicetree Specification v0.4

  function Big32(n: nat): (r: seq<Byte>)
    requires n < 0x1_0000_0000
    ensures |r| == 4
  {
    var n1 := n / 0x100;
    var n2 := n1 / 0x100;
    [n2 / 0x100, n2 % 0x100, n1 % 0x100, n % 0x100]
  }

  function Padding(n: nat): (r: seq<Byte>) { seq(Align4(n) - n, i => 0) }

  ghost predicate NoZero(name: Text) { 0 !in name }

  /** The bytes of a token; a property's name is at offset `off` in the strings block. */
  function TokenBytes(t: Token, off: nat): (r: seq<Byte>)
    requires off < 0x1_0000_0000 && (t.PropToken? ==> |t.prop.value| < 0x1_0000_0000)
  {
    match t
    case BeginNode(name) => Big32(1) + (name + [0] + Padding(|name| + 1))
    case EndNode => Big32(2)
    case PropToken(p) => Big32(3) + Big32(|p.value|) + Big32(off) + (p.value + Padding(|p.value|))
    case Nop => Big32(4)
    case End => Big32(9)
  }

  /** All allocations succeed. */
  const GRANTED: nat -> bool := here => true

  ghost predicate Holds(mem: seq<Byte>, a: nat, bytes: seq<Byte>) {
    a + |bytes| <= |mem| && mem[a..a + |bytes|] == bytes
  }

  ghost predicate TokenAt(mem: seq<Byte>, h: Header, here: nat, t: Token, off: nat) {
    && off < 0x1_0000_0000 && (t.PropToken? ==> |t.prop.value| < 0x1_0000_0000)
    && Holds(mem, here, TokenBytes(t, off))
    && (t.BeginNode? ==> NoZero(t.name))
    && (t.PropToken? ==>
          NoZero(t.prop.name) && Holds(mem, h.start + (h.offStrings + off) % 0x1_0000_0000, t.prop.name + [0]))
  }

  /** The tokens lie one after the other from `here` to `end`. */
  ghost predicate TokensAt(mem: seq<Byte>, h: Header, here: nat, end: nat, ts: seq<Token>, offs: seq<nat>)
    requires |ts| == |offs|
    decreases |ts|
  {
    if ts == [] then here == end
    else
      && TokenAt(mem, h, here, ts[0], offs[0])
      && TokensAt(mem, h, here + |TokenBytes(ts[0], offs[0])|, end, ts[1..], offs[1..])
  }

  lemma {:induction false} NameRead(mem: seq<Byte>, a: nat, name: Text)
    requires Holds(mem, a, name + [0]) && NoZero(name)
    ensures NameLength(mem, a) == |name| && mem[a..a + |name|] == name
    decreases |name|
  {
    var all := name + [0];
    assert forall i :: 0 <= i < |all| ==> mem[a + i] == mem[a..a + |all|][i] == all[i];
    if name != [] {
      assert mem[a] == name[0];
      assert mem[a + 1..a + 1 + |name[1..] + [0]|] == name[1..] + [0];
      NameRead(mem, a + 1, name[1..]);
    }
  }

  lemma BigRead(mem: seq<Byte>, a: nat, n: nat)
    requires n < 0x1_0000_0000 && Holds(mem, a, Big32(n))
    ensures U32(mem, a) == n
  {
    var b := Big32(n);
    assert mem[a] == mem[a..a + 4][0] && mem[a + 1] == mem[a..a + 4][1];
    assert mem[a + 2] == mem[a..a + 4][2] && mem[a + 3] == mem[a..a + 4][3];
    var n1 := n / 0x100;
    var n2 := n1 / 0x100;
    assert n1 == 0x100 * n2 + n1 % 0x100 && n2 == 0x100 * (n2 / 0x100) + n2 % 0x100;
  }

  lemma HoldsParts(mem: seq<Byte>, a: nat, x: seq<Byte>, y: seq<Byte>)
    requires Holds(mem, a, x + y)
    ensures Holds(mem, a, x) && Holds(mem, a + |x|, y)
  {
    assert mem[a..a + |x|] == (x + y)[..|x|] == x by {
      assert mem[a..a + |x|] == mem[a..a + |x + y|][..|x|];
    }
    assert mem[a + |x|..a + |x| + |y|] == mem[a..a + |x + y|][|x|..] == (x + y)[|x|..] == y;
  }

  lemma BeginRead(mem: seq<Byte>, a: nat, name: Text)
    requires Holds(mem, a, name + [0] + Padding(|name| + 1)) && NoZero(name) && |mem| + 3 < TOP_56 && a % 4 == 0
    ensures ReadBegin(mem, a, true) == Lexeme(BeginNode(name), a + |name + [0] + Padding(|name| + 1)|)
  {
    HoldsParts(mem, a, name + [0], Padding(|name| + 1));
    NameRead(mem, a, name);
    Aligned(a, |name| + 1);
    hide NameLength, Align4;
  }

  lemma PropRead(mem: seq<Byte>, h: Header, a: nat, p: Prop, off: nat)
    requires off < 0x1_0000_0000 && |p.value| < 0x1_0000_0000 && |mem| + 3 < TOP_56 && a % 4 == 0 && NoZero(p.name)
    requires Holds(mem, a, Big32(|p.value|) + (Big32(off) + (p.value + Padding(|p.value|))))
    requires Holds(mem, h.start + (h.offStrings + off) % 0x1_0000_0000, p.name + [0])
    ensures ReadProp(mem, h, a, true) == Lexeme(PropToken(p), a + 8 + |p.value + Padding(|p.value|)|)
  {
    hide ReadProp, NameLength, U32, Padding, Align4, Big32;
    var value := p.value + Padding(|p.value|);
    HoldsParts(mem, a, Big32(|p.value|), Big32(off) + value);
    HoldsParts(mem, a + 4, Big32(off), value);
    HoldsParts(mem, a + 8, p.value, Padding(|p.value|));
    BigRead(mem, a, |p.value|);
    BigRead(mem, a + 4, off);
    PropReadAt(mem, h, a, p, off);
    PaddedIs(a + 8, p.value);
  }

  lemma PaddedIs(a: nat, value: seq<Byte>)
    requires a % 4 == 0
    ensures Align4(a + |value|) == a + |value + Padding(|value|)|
  {
    Aligned(a, |value|);
  }

  lemma PropReadAt(mem: seq<Byte>, h: Header, a: nat, p: Prop, off: nat)
    requires off < 0x1_0000_0000 && |p.value| < 0x1_0000_0000 && |mem| + 3 < TOP_56 && NoZero(p.name)
    requires a + 8 <= |mem| && U32(mem, a) == |p.value| && U32(mem, a + 4) == off && Holds(mem, a + 8, p.value)
    requires Holds(mem, h.start + (h.offStrings + off) % 0x1_0000_0000, p.name + [0])
    ensures ReadProp(mem, h, a, true) == Lexeme(PropToken(p), Align4(a + 8 + |p.value|))
  {
    PropThere(mem, h.start + (h.offStrings + off) % 0x1_0000_0000, a + 8, p);
    hide U32, Align4, NoZero, Holds, PropAt;
  }

  lemma PropThere(mem: seq<Byte>, nameStart: nat, v: nat, p: Prop)
    requires |mem| + 3 < TOP_56 && NoZero(p.name) && Holds(mem, v, p.value) && Holds(mem, nameStart, p.name + [0])
    ensures PropAt(mem, nameStart, v, |p.value|, true) == Lexeme(PropToken(p), Align4(v + |p.value|))
  {
    NameRead(mem, nameStart, p.name);
    hide NameLength, Align4;
  }

  lemma Aligned(a: nat, n: nat)
    requires a % 4 == 0
    ensures Align4(a + n) == a + Align4(n) && Align4(n) >= n
  {
  }

  /** The bytes of a token are read back as that token. */
  lemma TokenRead(mem: seq<Byte>, h: Header, here: nat, t: Token, off: nat)
    requires TokenAt(mem, h, here, t, off) && here % 4 == 0 && |mem| + 3 < TOP_56
    ensures here + 4 <= |mem| && ReadToken(mem, h, here, true) == Lexeme(t, here + |TokenBytes(t, off)|)
    ensures |TokenBytes(t, off)| % 4 == 0 && |TokenBytes(t, off)| >= 4
    ensures U32(mem, here) == 1 ==> t.BeginNode?
    ensures U32(mem, here) == 3 ==> t.PropToken?
  {
    if t.BeginNode? {
      BeginTokenRead(mem, h, here, t.name);
      BeginBytes(t.name, off);
    } else if t.PropToken? {
      PropTokenRead(mem, h, here, t.prop, off);
    } else {
      WordTokenRead(mem, h, here, t);
      WordBytes(t, off);
    }
    hide *;
  }

  lemma BeginBytes(name: Text, off: nat)
    requires off < 0x1_0000_0000
    ensures TokenBytes(BeginNode(name), off) == TokenBytes(BeginNode(name), 0)
  {
  }

  lemma WordBytes(t: Token, off: nat)
    requires off < 0x1_0000_0000 && (t == EndNode || t == Nop || t == End)
    ensures TokenBytes(t, off) == TokenBytes(t, 0)
  {
  }

  lemma WordTokenRead(mem: seq<Byte>, h: Header, here: nat, t: Token)
    requires (t == EndNode || t == Nop || t == End) && Holds(mem, here, TokenBytes(t, 0))
    ensures here + 4 <= |mem| && ReadToken(mem, h, here, true) == Lexeme(t, here + 4) && |TokenBytes(t, 0)| == 4
    ensures U32(mem, here) != 1 && U32(mem, here) != 3
  {
    hide Big32, U32, ReadBegin, ReadProp, Padding;
    BigRead(mem, here, if t == EndNode then 2 else if t == Nop then 4 else 9);
  }

  lemma BeginTokenRead(mem: seq<Byte>, h: Header, here: nat, name: Text)
    requires NoZero(name) && here % 4 == 0 && |mem| + 3 < TOP_56
    requires Holds(mem, here, TokenBytes(BeginNode(name), 0))
    ensures here + 4 <= |mem| && U32(mem, here) == 1
    ensures |TokenBytes(BeginNode(name), 0)| % 4 == 0 && |TokenBytes(BeginNode(name), 0)| >= 4
    ensures ReadToken(mem, h, here, true) == Lexeme(BeginNode(name), here + |TokenBytes(BeginNode(name), 0)|)
  {
    hide Big32, U32, Align4, ReadBegin, NameLength, Padding;
    HoldsParts(mem, here, Big32(1), name + [0] + Padding(|name| + 1));
    BigRead(mem, here, 1);
    BeginRead(mem, here + 4, name);
    PaddedSize(|name| + 1);
  }

  lemma PropTokenRead(mem: seq<Byte>, h: Header, here: nat, p: Prop, off: nat)
    requires off < 0x1_0000_0000 && |p.value| < 0x1_0000_0000 && here % 4 == 0 && |mem| + 3 < TOP_56
    requires Holds(mem, here, TokenBytes(PropToken(p), off)) && NoZero(p.name)
    requires Holds(mem, h.start + (h.offStrings + off) % 0x1_0000_0000, p.name + [0])
    ensures here + 4 <= |mem| && U32(mem, here) == 3
    ensures |TokenBytes(PropToken(p), off)| % 4 == 0 && |TokenBytes(PropToken(p), off)| >= 4
    ensures ReadToken(mem, h, here, true) == Lexeme(PropToken(p), here + |TokenBytes(PropToken(p), off)|)
  {
    hide Big32, U32, Align4, ReadProp, NameLength, Padding;
    var value := p.value + Padding(|p.value|);
    assert TokenBytes(PropToken(p), off) == Big32(3) + (Big32(|p.value|) + (Big32(off) + value));
    HoldsParts(mem, here, Big32(3), Big32(|p.value|) + (Big32(off) + value));
    BigRead(mem, here, 3);
    PropRead(mem, h, here + 4, p, off);
    PaddedSize(|p.value|);
  }

  lemma PaddedSize(n: nat)
    ensures (n + |Padding(n)|) % 4 == 0
  {
  }

  /** Bytes of tokens read as those tokens. */
  lemma {:induction false} TokensLex(mem: seq<Byte>, h: Header, here: nat, end: nat, ts: seq<Token>, offs: seq<nat>)
    requires |ts| == |offs| && TokensAt(mem, h, here, end, ts, offs) && here % 4 == 0 && |mem| + 3 < TOP_56
    ensures Lexes(mem, h, here, end, ts, GRANTED) && here <= end
    decreases |ts|
  {
    hide TokenBytes, ReadToken, U32;
    if ts != [] {
      TokenRead(mem, h, here, ts[0], offs[0]);
      TokensLex(mem, h, here + |TokenBytes(ts[0], offs[0])|, end, ts[1..], offs[1..]);
    }
  }

  /**
    The structure block of a document, with `FDT_NOP` tokens anywhere before `FDT_END`, is parsed to that
    document, and other tokens are not.
   */
  lemma BlockParsedBack(mem: seq<Byte>, h: Header, here: nat, end: nat, doc: Doc, ts: seq<Token>, offs: seq<nat>)
    requires |ts| == |offs| && TokensAt(mem, h, here, end, ts, offs) && here % 4 == 0 && |mem| + 3 < TOP_56
    ensures ParseFrom(mem, h, here, end, BEGIN, GRANTED) == Tree(doc) <==>
      ts != [] && ts[|ts| - 1] == End && WithoutNops(ts) == DocTokens(doc) + [End]
  {
    hide *;
    TokensLex(mem, h, here, end, ts, offs);
    LexedRun(mem, h, here, end, BEGIN, ts, GRANTED);
    ParsesIff(doc, ts);
  }

  // ----- the loop

  datatype Result = Parsed(node: Node) | Failed | Panicked

  function ResultOf(outcome: Outcome): Result {
    match outcome
    case Tree(doc) => Parsed(NodeOf(doc))
    case NoTree => Failed
    case Halted => Panicked
  }

  /** The bytes read as the tokens of this node. */
  ghost predicate ReadsAs(mem: seq<Byte>, h: Header, start: nat, end: nat, memory: nat -> bool, node: Node) {
    exists ts :: Lexes(mem, h, start, end, ts, memory) && IsTree(ts, node)
  }

  /**
    For every memory content: a node is returned if and only if the bytes read as tokens up to the end of the block,
    all allocations on the way succeed, and the tokens are those of that node.
   */
  lemma ParsedNodeIff(mem: seq<Byte>, h: Header, start: nat, end: nat, memory: nat -> bool, node: Node)
    ensures ResultOf(ParseFrom(mem, h, start, end, BEGIN, memory)) == Parsed(node) <==>
      ReadsAs(mem, h, start, end, memory, node)
  {
    hide ParseFrom, Lexes, IsTree, NodeOf;
    var r := ParseFrom(mem, h, start, end, BEGIN, memory);
    if r.Tree? {
      var ts := TreeLexes(mem, h, start, end, BEGIN, memory, r.doc);
      LexedRun(mem, h, start, end, BEGIN, ts, memory);
      ParsesNodeIff(ts, node);
    }
    if ReadsAs(mem, h, start, end, memory, node) {
      var ts :| Lexes(mem, h, start, end, ts, memory) && IsTree(ts, node);
      LexedRun(mem, h, start, end, BEGIN, ts, memory);
      ParsesNodeIff(ts, node);
    }
  }

  /** The inner loop that looks for the end of a name. */
  method NameEnd(mem: seq<Byte>, a: nat) returns (length: int)
    ensures length == NameLength(mem, a)
  {
    var n := 0;
    while a + n < |mem| && mem[a + n] != 0
      invariant var rest := NameLength(mem, a + n);
        rest >= -1 && NameLength(mem, a) == if rest < 0 then -1 else n + rest
      decreases |mem| - n
    {
      n := n + 1;
    }
    length := if a + n < |mem| then n else -1;
  }

  /** The token at `here`, with its name or names. */
  method Lex(mem: seq<Byte>, h: Header, here: nat, granted: bool) returns (lexed: Lexed)
    requires here + 4 <= |mem|
    ensures lexed == ReadToken(mem, h, here, granted)
  {
    hide NameLength, U32, Align4;
    var kind, a := U32(mem, here), here + 4;
    if kind == 1 {
      var n := NameEnd(mem, a);
      return if n < 0 then Broken else if !granted then NoMemory else if a + n + 4 >= TOP_56 then Broken
        else Lexeme(BeginNode(mem[a..a + n]), Align4(a + n + 1));
    }
    if kind == 3 {
      if a + 8 > |mem| {
        return Broken;
      }
      var valueLen, nameOff, v := U32(mem, a), U32(mem, a + 4), a + 8;
      var nameStart := h.start + (h.offStrings + nameOff) % 0x1_0000_0000;
      var n := NameEnd(mem, nameStart);
      return if n < 0 || v + valueLen + 3 >= TOP_56 then Broken else if !granted then NoMemory
        else if v + valueLen > |mem| then Broken
        else Lexeme(PropToken(Prop(mem[nameStart..nameStart + n], mem[v..v + valueLen])), Align4(v + valueLen));
    }
    lexed := if kind == 2 then Lexeme(EndNode, a) else if kind == 4 then Lexeme(Nop, a)
      else if kind == 9 then Lexeme(End, a) else Broken;
  }

  /**
    `devicetree_parse_structure_block`, with the open nodes, outermost first, in place of the links from
    `current_node` to its parents. What it returns is the node that the tokens spell, whatever the bytes are.
   */
  method Parse(mem: seq<Byte>, h: Header, structStart: nat, structEnd: nat, memory: nat -> bool) returns (r: Result)
    ensures forall node :: r == Parsed(node) <==> ReadsAs(mem, h, structStart, structEnd, memory, node)
    ensures r == Panicked <==> HaltsFrom(mem, h, structStart, structEnd, 0, false, memory)
    ensures r == ResultOf(ParseFrom(mem, h, structStart, structEnd, BEGIN, memory))
  {
    r := ParseLoop(mem, h, structStart, structEnd, memory);
    HaltsIff(mem, h, structStart, structEnd, BEGIN, memory);
    forall node
      ensures r == Parsed(node) <==> ReadsAs(mem, h, structStart, structEnd, memory, node)
    {
      ParsedNodeIff(mem, h, structStart, structEnd, memory, node);
    }
    hide ReadsAs, HaltsFrom, ParseFrom, NodeOf;
  }

  /** The loop. */
  method ParseLoop(mem: seq<Byte>, h: Header, structStart: nat, structEnd: nat, memory: nat -> bool)
    returns (r: Result)
    ensures r == ResultOf(ParseFrom(mem, h, structStart, structEnd, BEGIN, memory))
  {
    hide ReadToken, NodesAfter, NodeOf, U32;
    var here := structStart;
    var stack: seq<Node> := [];
    var finishedRootNode, gotEndToken := false, false;
    ghost var st := BEGIN;
    while here != structEnd
      invariant Mirrors(stack, st.stack) && finishedRootNode == st.finished && gotEndToken == st.gotEnd
      invariant ParseFrom(mem, h, here, structEnd, st, memory)
        == ParseFrom(mem, h, structStart, structEnd, BEGIN, memory)
      decreases if here < |mem| then |mem| - here else 0, if here < |mem| then 1 else 0
    {
      if here + 4 > |mem| {
        return Panicked;
      }
      var kind := U32(mem, here);
      if (kind == 1 && finishedRootNode) || (kind == 3 && (stack == [] || finishedRootNode)) {
        return FailResult(|stack|);
      }
      var lexed := Lex(mem, h, here, memory(here));
      if lexed == Broken {
        return Panicked;
      }
      if lexed == NoMemory {
        return FailResult(|stack|);
      }
      KindOf(mem, h, here, memory(here));
      here := lexed.next;
      var token := lexed.token;
      if (token == EndNode && (stack == [] || finishedRootNode)) || (token == End && here != structEnd) {
        return FailResult(|stack|);
      }
      MirrorStep(stack, st, token, here == structEnd);
      st := Step(st, token, here == structEnd).st;
      finishedRootNode := finishedRootNode || (token == EndNode && |stack| == 1);
      gotEndToken := gotEndToken || token == End;
      stack := NodesAfter(stack, token);
    }
    if !gotEndToken || stack == [] || !finishedRootNode {
      return FailResult(|stack|);
    }
    r := Parsed(stack[|stack| - 1]);
  }

  /** The label `fail`: without an open node, or with the root alone, there just is no tree. */
  function FailResult(open: nat): Result { if open <= 1 then Failed else Panicked }
}
