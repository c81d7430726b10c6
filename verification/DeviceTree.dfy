/**
  Flattened device trees: one format and two readers. The userspace reader walks by offsets and
  keeps them for later iterations; the kernel reader has a single cursor and relies on every node
  being skipped when it is dropped. On every well-formed block a reader recovers the tree that is
  in it or stops: the userspace reader stops exactly at cells that are no words, the kernel reader
  exactly at names that are not UTF-8.
  */
module DeviceTree {

  import opened Options
  import opened Bytes

  const TOKEN_BEGIN_NODE: nat := 1
  const TOKEN_END_NODE: nat := 2
  const TOKEN_PROP: nat := 3
  const TOKEN_NOP: nat := 4
  const TOKEN_END: nat := 9

  /** The structure block, as big-endian words and as bytes, and the strings block. */
  datatype Blob = Blob(words: seq<u32>, data: seq<byte>, strings: seq<byte>)

  datatype Property = Property(name: seq<byte>, value: seq<byte>)

  datatype Tree = Tree(name: seq<byte>, props: seq<Property>, children: seq<Tree>)

  // ---------------------------------------------------------------- words and strings

  predicate InRange(b: Blob, i: nat) { i < |b.words| }

  function Word(b: Blob, i: nat): nat
    requires InRange(b, i)
  {
    b.words[i]
  }

  function Get(b: Blob, i: nat): Option<nat> {
    if InRange(b, i) then Some(Word(b, i)) else None
  }

  /** The bytes up to the first zero. */
  function CStr(s: seq<byte>, at: nat): (r: Option<seq<byte>>)
    ensures r.Some? ==> at + |r.value| < |s|
    decreases |s| - at
  {
    if at >= |s| then None
    else if s[at] == 0 then Some([])
    else
      var rest := CStr(s, at + 1);
      if rest.Some? then Some([s[at]] + rest.value) else None
  }

  function WordsFor(len: nat): nat { (len + 3) / 4 }

  // ---------------------------------------------------------------- the format

  function PropWords(p: Property): nat { 3 + WordsFor(|p.value|) }

  function PropsWords(ps: seq<Property>): nat {
    if ps == [] then 0 else PropWords(ps[0]) + PropsWords(ps[1..])
  }

  function NameWords(name: seq<byte>): nat { WordsFor(|name| + 1) }

  function TreeWords(t: Tree): (n: nat)
    ensures n >= 3
  {
    2 + NameWords(t.name) + PropsWords(t.props) + TreesWords(t.children)
  }

  function TreesWords(ts: seq<Tree>): nat {
    if ts == [] then 0 else TreeWords(ts[0]) + TreesWords(ts[1..])
  }

  ghost predicate HasProp(b: Blob, at: nat, p: Property) {
    && at + PropWords(p) <= |b.words| && 4 * (at + 3) + |p.value| <= |b.data|
    && Word(b, at) == TOKEN_PROP && Word(b, at + 1) == |p.value|
    && CStr(b.strings, Word(b, at + 2)) == Some(p.name)
    && b.data[4 * (at + 3)..4 * (at + 3) + |p.value|] == p.value
  }

  ghost predicate HasProps(b: Blob, at: nat, ps: seq<Property>)
    decreases |ps|
  {
    ps == [] || (HasProp(b, at, ps[0]) && HasProps(b, at + PropWords(ps[0]), ps[1..]))
  }

  /** A node is its begin token and name, and its body: properties, children, end token. */
  ghost predicate HasTree(b: Blob, at: nat, t: Tree)
    decreases t, 0
  {
    && InRange(b, at) && Word(b, at) == TOKEN_BEGIN_NODE && CStr(b.data, 4 * (at + 1)) == Some(t.name)
    && HasProps(b, at + 1 + NameWords(t.name), t.props)
    && HasTrees(b, at + 1 + NameWords(t.name) + PropsWords(t.props), t.children)
    && InRange(b, at + TreeWords(t) - 1) && Word(b, at + TreeWords(t) - 1) == TOKEN_END_NODE
  }

  ghost predicate HasTrees(b: Blob, at: nat, ts: seq<Tree>)
    decreases ts, 1
  {
    ts == [] || (HasTree(b, at, ts[0]) && HasTrees(b, at + TreeWords(ts[0]), ts[1..]))
  }

  /** What is left of a node's body: properties, children, and the end token before `end`. */
  ghost predicate HasBody(b: Blob, at: nat, ps: seq<Property>, ts: seq<Tree>, end: nat) {
    && HasProps(b, at, ps) && HasTrees(b, at + PropsWords(ps), ts)
    && end == at + PropsWords(ps) + TreesWords(ts) + 1
    && InRange(b, end - 1) && Word(b, end - 1) == TOKEN_END_NODE
  }

  lemma TreeBody(b: Blob, at: nat, t: Tree)
    requires HasTree(b, at, t)
    ensures InRange(b, at) && Word(b, at) == TOKEN_BEGIN_NODE && CStr(b.data, 4 * (at + 1)) == Some(t.name)
    ensures HasBody(b, at + 1 + NameWords(t.name), t.props, t.children, at + TreeWords(t))
  {
  }

  lemma BodyInRange(b: Blob, at: nat, ps: seq<Property>, ts: seq<Tree>, end: nat)
    requires HasBody(b, at, ps, ts, end)
    ensures at < end && InRange(b, at)
    ensures Word(b, at) == if ps != [] then TOKEN_PROP else if ts != [] then TOKEN_BEGIN_NODE else TOKEN_END_NODE
  {
    if ps != [] {
      assert HasProp(b, at, ps[0]);
    } else if ts != [] {
      assert HasTree(b, at, ts[0]);
    }
  }

  lemma BodyProp(b: Blob, at: nat, ps: seq<Property>, ts: seq<Tree>, end: nat)
    requires HasBody(b, at, ps, ts, end) && Get(b, at) == Some(TOKEN_PROP)
    ensures ps != [] && HasProp(b, at, ps[0]) && HasBody(b, at + PropWords(ps[0]), ps[1..], ts, end)
  {
    BodyInRange(b, at, ps, ts, end);
    var next := at + PropWords(ps[0]);
    assert next + PropsWords(ps[1..]) == at + PropsWords(ps);
  }

  lemma BodyNoProp(b: Blob, at: nat, ps: seq<Property>, ts: seq<Tree>, end: nat)
    requires HasBody(b, at, ps, ts, end) && Get(b, at) != Some(TOKEN_PROP)
    ensures ps == []
  {
    BodyInRange(b, at, ps, ts, end);
  }

  lemma BodyChild(b: Blob, at: nat, ts: seq<Tree>, end: nat)
    requires HasBody(b, at, [], ts, end) && ts != []
    ensures HasTree(b, at, ts[0]) && HasBody(b, at + TreeWords(ts[0]), [], ts[1..], end)
  {
  }

  // ---------------------------------------------------------------- the userspace reader

  datatype ParseNodeError = UnexpectedToken | UnterminatedName | TooShort | OutOfBounds | InvalidToken

  /** The sizes of cells that a node's children inherit. */
  datatype Cells = Cells(address: nat, size: nat, interrupt: nat)

  /** A parsed node: where its properties and its children start. */
  datatype Node = Node(name: seq<byte>, cells: Cells, properties: nat, children: nat)

  predicate ValidToken(t: nat) {
    t == TOKEN_BEGIN_NODE || t == TOKEN_END_NODE || t == TOKEN_PROP || t == TOKEN_NOP || t == TOKEN_END
  }

  /** The handle for a tree at `at`. */
  function NodeFor(t: Tree, at: nat, cells: Cells): Node {
    var p := at + 1 + NameWords(t.name);
    Node(t.name, cells, p, p + PropsWords(t.props))
  }

  function Left(b: Blob, at: nat): nat {
    if at <= |b.words| then |b.words| - at else 0
  }

  /** The length and the name of the property at `at`. */
  method PropertyHeader(b: Blob, at: nat, ghost p: Property) returns (r: Result<(nat, seq<byte>), ParseNodeError>)
    ensures HasProp(b, at, p) ==> r == Ok((|p.value|, p.name))
  {
    var len, name := Get(b, at + 1), Get(b, at + 2);
    if len.None? || name.None? { return Err(TooShort); }
    var s := CStr(b.strings, name.value);
    r := if s.Some? then Ok((len.value, s.value)) else Err(OutOfBounds);
  }

  /** Passes over properties; what they are is looked up again by `PropertyIter`. */
  method SkipProperties(b: Blob, start: nat, ghost ps: seq<Property>, ghost ts: seq<Tree>, ghost end: nat)
    returns (r: Result<nat, ParseNodeError>)
    ensures r.Ok? ==> r.value >= start
    ensures HasBody(b, start, ps, ts, end)
            ==> r.Ok? && r.value == start + PropsWords(ps) && HasBody(b, r.value, [], ts, end)
  {
    var at := start;
    ghost var left := ps;
    ghost var good := HasBody(b, start, ps, ts, end);
    while Get(b, at) == Some(TOKEN_PROP)
      invariant at >= start
      invariant good ==> HasBody(b, at, left, ts, end) && at + PropsWords(left) == start + PropsWords(ps)
      decreases Left(b, at)
    {
      if good { BodyProp(b, at, left, ts, end); }
      var h := PropertyHeader(b, at, if good then left[0] else Property([], []));
      if h.Err? { return Err(h.error); }
      at := at + 3 + WordsFor(h.value.0);
      left := if good then left[1..] else left;
    }
    if good { BodyNoProp(b, at, left, ts, end); }
    r := Ok(at);
  }

  /** The name of the node at `at`, and where its properties start. */
  method NodeHeader(b: Blob, at: nat, ghost t: Tree) returns (r: Result<(seq<byte>, nat), ParseNodeError>)
    ensures r.Ok? ==> InRange(b, at) && r.value.1 > at
    ensures HasTree(b, at, t) ==> r == Ok((t.name, at + 1 + NameWords(t.name)))
  {
    ghost var good := HasTree(b, at, t);
    if good { TreeBody(b, at, t); }
    if Get(b, at) != Some(TOKEN_BEGIN_NODE) { return Err(UnexpectedToken); }
    var name := CStr(b.data, 4 * (at + 1));
    if name.None? { return Err(UnterminatedName); }
    var properties := at + 1 + NameWords(name.value);
    if good { BodyInRange(b, properties, t.props, t.children, at + TreeWords(t)); }
    var token := Get(b, properties);
    if token.None? || !ValidToken(token.value) { return Err(InvalidToken); }
    r := Ok((name.value, properties));
  }

  /** Reads a node up to its end token. */
  method NewNode(b: Blob, at: nat, cells: Cells, ghost t: Tree) returns (r: Result<(Node, nat), ParseNodeError>)
    ensures r.Ok? ==> r.value.1 > at
    ensures HasTree(b, at, t) ==> r == Ok((NodeFor(t, at, cells), at + TreeWords(t)))
    decreases Left(b, at), 0
  {
    if HasTree(b, at, t) { TreeBody(b, at, t); }
    ghost var end := at + TreeWords(t);
    var h := NodeHeader(b, at, t);
    if h.Err? { return Err(h.error); }
    var children := SkipProperties(b, h.value.1, t.props, t.children, end);
    if children.Err? { return Err(children.error); }
    var e := SkipChildren(b, children.value, t.children, end);
    if e.Err? { return Err(e.error); }
    r := Ok((Node(h.value.0, cells, h.value.1, children.value), e.value));
  }

  /** Parses child after child up to the end token, and steps behind it. */
  method SkipChildren(b: Blob, start: nat, ghost ts: seq<Tree>, ghost end: nat) returns (r: Result<nat, ParseNodeError>)
    ensures r.Ok? ==> r.value > start
    ensures HasBody(b, start, [], ts, end) ==> r == Ok(end)
    decreases Left(b, start), 1
  {
    var at := start;
    ghost var left := ts;
    ghost var good := HasBody(b, start, [], ts, end);
    while true
      invariant at >= start
      invariant good ==> HasBody(b, at, [], left, end)
      decreases Left(b, at)
    {
      if good { BodyInRange(b, at, [], left, end); }
      var token := Get(b, at);
      if token.None? { return Err(TooShort); }
      if token.value == TOKEN_END_NODE { return Ok(at + 1); }
      if good { BodyChild(b, at, left, end); }
      var n := NewNode(b, at, Cells(0, 0, 0), if good then left[0] else Tree([], [], []));
      if n.Err? { return Err(n.error); }
      at := n.value.1;
      left := if good then left[1..] else left;
    }
  }

  class PropertyIter {
    const b: Blob
    var offset: nat

    constructor (b: Blob, offset: nat)
      ensures this.b == b && this.offset == offset
    {
      this.b, this.offset := b, offset;
    }

    /** The next property; every lookup on the way succeeds. */
    method Next(ghost ps: seq<Property>, ghost ts: seq<Tree>, ghost end: nat) returns (p: Option<Property>)
      requires HasBody(b, offset, ps, ts, end)
      modifies this
      ensures p == if ps == [] then None else Some(ps[0])
      ensures HasBody(b, offset, if ps == [] then [] else ps[1..], ts, end)
    {
      BodyInRange(b, offset, ps, ts, end);
      p := None;
      if Get(b, offset) == Some(TOKEN_PROP) {
        BodyProp(b, offset, ps, ts, end);
        var len := Word(b, offset + 1);
        var name := CStr(b.strings, Word(b, offset + 2));
        var start := 4 * (offset + 3);
        p := Some(Property(name.value, b.data[start..start + len]));
        offset := offset + 3 + WordsFor(len);
      }
    }
  }

  const ADDRESS_CELLS: seq<byte> := [0x23, 0x61, 0x64, 0x64, 0x72, 0x65, 0x73, 0x73, 0x2D, 0x63, 0x65, 0x6C, 0x6C, 0x73]
  const SIZE_CELLS: seq<byte> := [0x23, 0x73, 0x69, 0x7A, 0x65, 0x2D, 0x63, 0x65, 0x6C, 0x6C, 0x73]
  const INTERRUPT_CELLS: seq<byte> :=
    [0x23, 0x69, 0x6E, 0x74, 0x65, 0x72, 0x72, 0x75, 0x70, 0x74, 0x2D, 0x63, 0x65, 0x6C, 0x6C, 0x73]

  function U32Be(v: seq<byte>): nat
    requires |v| == 4
  {
    ((v[0] as int * 0x100 + v[1] as int) * 0x100 + v[2] as int) * 0x100 + v[3] as int
  }

  /** Properties that give sizes of cells have to be words, or iterating the children stops. */
  predicate CellsOk(p: Property) {
    p.name == ADDRESS_CELLS || p.name == SIZE_CELLS || p.name == INTERRUPT_CELLS ==> |p.value| == 4
  }

  function SetCells(c: Cells, p: Property): Cells
    requires CellsOk(p)
  {
    if p.name == ADDRESS_CELLS then c.(address := U32Be(p.value))
    else if p.name == SIZE_CELLS then c.(size := U32Be(p.value))
    else if p.name == INTERRUPT_CELLS then c.(interrupt := U32Be(p.value))
    else c
  }

  ghost predicate AllCellsOk(ps: seq<Property>) {
    forall i :: 0 <= i < |ps| ==> CellsOk(ps[i])
  }

  /** What the children inherit: the defaults, or what the properties say; the last one wins. */
  function CellsOf(ps: seq<Property>, c: Cells): Cells
    requires AllCellsOk(ps)
  {
    if ps == [] then c else CellsOf(ps[1..], SetCells(c, ps[0]))
  }

  /**
    The cells that a node's properties give its children. Reading stops at a property that should be a word and is
    not.
    */
  method InheritedCells(b: Blob, n: Node, ghost ps: seq<Property>, ghost ts: seq<Tree>, ghost end: nat)
    returns (c: Option<Cells>)
    requires HasBody(b, n.properties, ps, ts, end)
    ensures c.Some? <==> AllCellsOk(ps)
    ensures c.Some? ==> c.value == CellsOf(ps, Cells(2, 1, 0))
  {
    var cells := Cells(2, 1, 0);
    var it := new PropertyIter(b, n.properties);
    ghost var left := ps;
    var p := it.Next(ps, ts, end);
    while p.Some?
      invariant it.b == b && p == if left == [] then None else Some(left[0])
      invariant AllCellsOk(left) <==> AllCellsOk(ps)
      invariant AllCellsOk(left) ==> CellsOf(left, cells) == CellsOf(ps, Cells(2, 1, 0))
      invariant HasBody(b, it.offset, if left == [] then [] else left[1..], ts, end)
      decreases |left|
    {
      AllCellsStep(left);
      if !CellsOk(p.value) { return None; }
      cells := SetCells(cells, p.value);
      left := left[1..];
      p := it.Next(left, ts, end);
    }
    c := Some(cells);
  }

  lemma AllCellsStep(ps: seq<Property>)
    requires ps != []
    ensures AllCellsOk(ps) <==> CellsOk(ps[0]) && AllCellsOk(ps[1..])
  {
    if CellsOk(ps[0]) && AllCellsOk(ps[1..]) {
      forall i | 0 <= i < |ps| ensures CellsOk(ps[i]) { if i > 0 { assert ps[i] == ps[1..][i - 1]; } }
    }
  }

  class ChildIter {
    const b: Blob
    const cells: Cells
    var offset: nat

    constructor (b: Blob, cells: Cells, offset: nat)
      ensures this.b == b && this.cells == cells && this.offset == offset
    {
      this.b, this.cells, this.offset := b, cells, offset;
    }

    method Next(ghost ts: seq<Tree>, ghost end: nat) returns (n: Option<Node>)
      requires HasBody(b, offset, [], ts, end)
      modifies this
      ensures n == if ts == [] then None else Some(NodeFor(ts[0], old(offset), cells))
      ensures HasBody(b, offset, [], if ts == [] then [] else ts[1..], end)
    {
      BodyInRange(b, offset, [], ts, end);
      n := None;
      if Get(b, offset) == Some(TOKEN_BEGIN_NODE) {
        BodyChild(b, offset, ts, end);
        var r := NewNode(b, offset, cells, ts[0]);
        n, offset := Some(r.value.0), r.value.1;
      }
    }
  }

  ghost predicate TreeOk(t: Tree) {
    AllCellsOk(t.props) && forall i :: 0 <= i < |t.children| ==> TreeOk(t.children[i])
  }

  method ReadProperties(b: Blob, n: Node, ghost ps: seq<Property>, ghost ts: seq<Tree>, ghost end: nat)
    returns (r: seq<Property>)
    requires HasBody(b, n.properties, ps, ts, end)
    ensures r == ps
  {
    r := [];
    var it := new PropertyIter(b, n.properties);
    var more := true;
    while more
      invariant it.b == b && r <= ps && HasBody(b, it.offset, ps[|r|..], ts, end) && (!more ==> r == ps)
      decreases |ps| - |r|, more
    {
      var p := it.Next(ps[|r|..], ts, end);
      more := p.Some?;
      if more { r := r + [p.value]; }
    }
  }

  /**
    Everything the userspace reader finds below a node: the tree that is in the block. `NewNode` has
    accepted it whatever its cells are, so reading it stops exactly if some of them are no words.
    */
  method ReadTree(b: Blob, n: Node, at: nat, ghost t: Tree) returns (r: Option<Tree>)
    requires HasTree(b, at, t) && n == NodeFor(t, at, n.cells)
    ensures r == if TreeOk(t) then Some(t) else None
    decreases t, 0
  {
    TreeBody(b, at, t);
    ghost var end := at + TreeWords(t);
    var props := ReadProperties(b, n, t.props, t.children, end);
    var cells := InheritedCells(b, n, t.props, t.children, end);
    if cells.None? { return None; }
    BodyChildren(b, n.properties, t.props, t.children, end);
    var it := new ChildIter(b, cells.value, n.children);
    var children := ReadChildren(it, t.children, end);
    r := if children.Some? then Some(Tree(n.name, props, children.value)) else None;
  }

  lemma BodyChildren(b: Blob, at: nat, ps: seq<Property>, ts: seq<Tree>, end: nat)
    requires HasBody(b, at, ps, ts, end)
    ensures HasBody(b, at + PropsWords(ps), [], ts, end)
  {
  }

  method ReadChildren(it: ChildIter, ghost ts: seq<Tree>, ghost end: nat) returns (r: Option<seq<Tree>>)
    requires HasBody(it.b, it.offset, [], ts, end)
    modifies it
    ensures r == if forall i :: 0 <= i < |ts| ==> TreeOk(ts[i]) then Some(ts) else None
    decreases ts, 1
  {
    var done, more := [], true;
    while more
      invariant done <= ts && HasBody(it.b, it.offset, [], ts[|done|..], end) && (!more ==> done == ts)
      invariant forall i :: 0 <= i < |done| ==> TreeOk(ts[i])
      decreases |ts| - |done|, more
    {
      var stop, child := ReadChild(it, ts, |done|, end);
      if stop { return None; }
      more := child.Some?;
      if more { done := done + [child.value]; }
    }
    r := Some(done);
  }

  /** The next child with everything below it. */
  method ReadChild(it: ChildIter, ghost ts: seq<Tree>, ghost k: nat, ghost end: nat)
    returns (stop: bool, r: Option<Tree>)
    requires k <= |ts| && HasBody(it.b, it.offset, [], ts[k..], end)
    modifies it
    ensures stop <==> k < |ts| && !TreeOk(ts[k])
    ensures !stop ==> r == if k < |ts| then Some(ts[k]) else None
    ensures k < |ts| ==> HasBody(it.b, it.offset, [], ts[k + 1..], end)
    ensures k == |ts| ==> HasBody(it.b, it.offset, [], ts[k..], end)
    decreases ts, 0
  {
    ghost var left := ts[k..];
    var offset := it.offset;
    if k < |ts| { BodyChild(it.b, offset, left, end); }
    var c := it.Next(left, end);
    stop, r := false, None;
    if c.Some? {
      r := ReadTree(it.b, c.value, offset, ts[k]);
      stop := r.None?;
    }
  }

  // ---------------------------------------------------------------- text

  predicate Continues(b: byte) { 0x80 <= b <= 0xBF }

  /** The length of the character that a text starts with; none if it is malformed. */
  function CharLength(s: seq<byte>): (n: Option<nat>)
    requires s != []
    ensures n.Some? ==> 0 < n.value <= |s|
  {
    if s[0] < 0x80 then Some(1)
    else if |s| >= 2 && 0xC2 <= s[0] <= 0xDF && Continues(s[1]) then Some(2)
    else if |s| >= 3 && 0xE0 <= s[0] <= 0xEF && Continues(s[1]) && Continues(s[2])
      && (s[0] == 0xE0 ==> s[1] >= 0xA0) && (s[0] == 0xED ==> s[1] <= 0x9F) then Some(3)
    else if |s| >= 4 && 0xF0 <= s[0] <= 0xF4 && Continues(s[1]) && Continues(s[2]) && Continues(s[3])
      && (s[0] == 0xF0 ==> s[1] >= 0x90) && (s[0] == 0xF4 ==> s[1] <= 0x8F) then Some(4)
    else None
  }

  /** Well-formed UTF-8. */
  predicate Utf8(s: seq<byte>) {
    s == [] || (CharLength(s).Some? && Utf8(s[CharLength(s).value..]))
  }

  ghost predicate TextProps(ps: seq<Property>) {
    ps == [] || (Utf8(ps[0].name) && TextProps(ps[1..]))
  }

  /** All names in a tree are text. */
  ghost predicate TextTree(t: Tree)
    decreases t, 0
  {
    Utf8(t.name) && TextProps(t.props) && TextTrees(t.children)
  }

  ghost predicate TextTrees(ts: seq<Tree>)
    decreases ts, 1
  {
    ts == [] || (TextTree(ts[0]) && TextTrees(ts[1..]))
  }

  // ---------------------------------------------------------------- the kernel reader

  /** The number of nodes of a tree, and of a list of trees. */
  function Nodes(t: Tree): nat { 1 + AllNodes(t.children) }

  function AllNodes(ts: seq<Tree>): nat {
    if ts == [] then 0 else Nodes(ts[0]) + AllNodes(ts[1..])
  }

  datatype NodeState = Properties | ChildNodes | Empty

  /** The one cursor all nodes share. */
  class Interpreter {
    const b: Blob
    var pc: nat
    var nodeCount: nat

    constructor (b: Blob, pc: nat)
      ensures this.b == b && this.pc == pc && nodeCount == 0
    {
      this.b, this.pc, nodeCount := b, pc, 0;
    }

    /** Tokens without meaning are skipped. */
    method SkipNops()
      modifies this`pc
      ensures Get(b, old(pc)) != Some(TOKEN_NOP) ==> pc == old(pc)
    {
      while Get(b, pc) == Some(TOKEN_NOP)
        invariant pc == old(pc) || Get(b, old(pc)) == Some(TOKEN_NOP)
        decreases Left(b, pc)
      {
        pc := pc + 1;
      }
    }

    /** Enters the next child, or leaves the node and counts it. Stops, `!ok`, if the child's name is no text. */
    method StepNode(ghost ts: seq<Tree>, ghost end: nat) returns (ok: bool, name: Option<seq<byte>>)
      requires HasBody(b, pc, [], ts, end)
      modifies this
      ensures !ok <==> ts != [] && !Utf8(ts[0].name)
      ensures ts == [] ==> name.None? && pc == end && nodeCount == old(nodeCount) + 1
      ensures ok && ts != [] ==> name == Some(ts[0].name) && nodeCount == old(nodeCount)
      ensures ok && ts != [] ==> HasTree(b, old(pc), ts[0]) && pc == old(pc) + 1 + NameWords(ts[0].name)
    {
      BodyInRange(b, pc, [], ts, end);
      SkipNops();
      var token := Word(b, pc);
      ok := true;
      if token == TOKEN_BEGIN_NODE {
        BodyChild(b, pc, ts, end);
        name := CStr(b.data, 4 * (pc + 1));
        if !Utf8(name.value) { return false, None; }
        pc := pc + 1 + NameWords(name.value);
      } else {
        pc, nodeCount := pc + 1, nodeCount + 1;
        name := None;
      }
    }

    /** Reads the next property, or stays at the token behind the last one. Stops, `!ok`, if its name is no text. */
    method StepProperty(ghost ps: seq<Property>, ghost ts: seq<Tree>, ghost end: nat)
      returns (ok: bool, p: Option<Property>)
      requires HasBody(b, pc, ps, ts, end)
      modifies this`pc
      ensures !ok <==> ps != [] && !Utf8(ps[0].name)
      ensures ok ==> p == if ps == [] then None else Some(ps[0])
      ensures ok ==> HasBody(b, pc, if ps == [] then [] else ps[1..], ts, end)
    {
      BodyInRange(b, pc, ps, ts, end);
      SkipNops();
      ok, p := true, None;
      if Word(b, pc) == TOKEN_PROP {
        BodyProp(b, pc, ps, ts, end);
        var len := Word(b, pc + 1);
        var name := CStr(b.strings, Word(b, pc + 2));
        if !Utf8(name.value) { return false, None; }
        var start := 4 * (pc + 3);
        p := Some(Property(name.value, b.data[start..start + len]));
        pc := pc + 3 + WordsFor(len);
      }
    }
  }

  /** A node as far as it has been read: what is left of it is ghost. */
  class KernelNode {
    const interpreter: Interpreter
    const name: seq<byte>
    var state: NodeState
    ghost var props: seq<Property>
    ghost var children: seq<Tree>
    ghost const end: nat

    /** The cursor is where the node left it: all children entered before have been dropped. */
    ghost predicate Valid()
      reads this, interpreter
    {
      match state
      case Properties => HasBody(interpreter.b, interpreter.pc, props, children, end)
      case ChildNodes => props == [] && HasBody(interpreter.b, interpreter.pc, [], children, end)
      case Empty => props == [] && children == [] && interpreter.pc == end
    }

    /** The node whose name the cursor has just passed. */
    constructor (interpreter: Interpreter, name: seq<byte>, at: nat, ghost t: Tree)
      requires HasTree(interpreter.b, at, t) && name == t.name && interpreter.pc == at + 1 + NameWords(t.name)
      ensures Valid() && this.interpreter == interpreter && state == Properties && this.name == name
      ensures props == t.props && children == t.children && end == at + TreeWords(t)
    {
      TreeBody(interpreter.b, at, t);
      this.interpreter, this.name, state := interpreter, name, Properties;
      props, children, end := t.props, t.children, at + TreeWords(t);
    }

    method NextProperty() returns (ok: bool, p: Option<Property>)
      requires Valid()
      modifies this`state, this`props, interpreter`pc
      ensures !ok <==> old(state).Properties? && old(props) != [] && !Utf8(old(props)[0].name)
      ensures ok ==> Valid()
      ensures ok && old(state).Properties? && old(props) != []
              ==> p == Some(old(props)[0]) && props == old(props)[1..] && state.Properties?
      ensures ok && old(state).Properties? && old(props) == [] ==> p.None? && state.ChildNodes? && props == []
      ensures !old(state).Properties?
              ==> p.None? && state == old(state) && props == old(props) && interpreter.pc == old(interpreter.pc)
    {
      ok, p := true, None;
      if state == Properties {
        ok, p := interpreter.StepProperty(props, children, end);
        if !ok { return; }
        if p.Some? {
          props := props[1..];
        } else {
          state := ChildNodes;
        }
      }
    }

    /** What is left to be counted when the node is left. */
    ghost function Uncounted(): nat
      reads this
    {
      if state == Empty then 0 else 1 + AllNodes(children)
    }

    /** Enters the next child. The cursor is the child's until it is dropped. */
    method NextChildNode() returns (ok: bool, c: KernelNode?)
      requires Valid()
      modifies this`state, this`children, interpreter
      ensures !ok <==> old(state).ChildNodes? && old(children) != [] && !Utf8(old(children)[0].name)
      ensures !ok ==> c == null
      ensures !old(state).ChildNodes? ==> c == null && state == old(state) && children == old(children)
      ensures !old(state).ChildNodes?
              ==> interpreter.pc == old(interpreter.pc) && interpreter.nodeCount == old(interpreter.nodeCount)
      ensures ok && c == null ==> Valid() && (old(state).ChildNodes? ==> state == Empty && old(children) == [])
      ensures ok && c == null && old(state).ChildNodes? ==> interpreter.nodeCount == old(interpreter.nodeCount) + 1
      ensures c != null ==> fresh(c) && c.Valid() && c.interpreter == interpreter && c.state == Properties
                            && old(children) != []
      ensures c != null ==> c.name == old(children)[0].name && c.props == old(children)[0].props
                            && c.children == old(children)[0].children
      ensures c != null ==> state == ChildNodes && children == old(children)[1..]
                            && HasBody(interpreter.b, c.end, [], children, end)
      ensures c != null ==> interpreter.nodeCount == old(interpreter.nodeCount)
    {
      hide HasBody, HasTree, NameWords, TreeWords, Utf8;
      ok, c := true, null;
      if state == ChildNodes {
        var at := interpreter.pc;
        var childName;
        ok, childName := interpreter.StepNode(children, end);
        if !ok { return; }
        if childName.Some? {
          BodyChild(interpreter.b, at, children, end);
          c := new KernelNode(interpreter, childName.value, at, children[0]);
          children := children[1..];
        } else {
          state := Empty;
        }
      }
    }

    /** Passes over the properties that have not been read, and stops exactly if one of their names is no text. */
    method SkipProperties() returns (ok: bool)
      requires Valid()
      modifies this`state, this`props, interpreter`pc
      ensures ok <==> TextProps(old(props))
      ensures ok ==> Valid() && props == [] && state == if old(state) == Empty then Empty else ChildNodes
    {
      hide HasBody, Utf8;
      var p;
      ok, p := NextProperty();
      while ok && p.Some?
        invariant ok ==> Valid() && (p.Some? ==> state == Properties)
        invariant ok && p.None? ==> props == [] && state == if old(state) == Empty then Empty else ChildNodes
        invariant old(state) == Empty ==> ok && p.None?
        invariant if ok then TextProps(props) <==> TextProps(old(props)) else !TextProps(old(props))
        decreases ok, |props|, p.Some?
      {
        ok, p := NextProperty();
      }
    }

    /** Enters the next child and drops it at once; `!more` if there is none. */
    method DropNextChild() returns (ok: bool, more: bool)
      requires Valid() && state != Properties
      modifies this`state, this`children, interpreter
      ensures ok <==> old(children) == [] || TextTree(old(children)[0])
      ensures ok ==> Valid() && state == if more then ChildNodes else Empty
      ensures ok && more ==> old(children) != [] && children == old(children)[1..]
      ensures ok && !more ==> children == [] && old(children) == []
      ensures ok ==> interpreter.nodeCount + Uncounted() == old(interpreter.nodeCount + Uncounted())
      ensures ok ==> AllNodes(children) <= old(AllNodes(children))
      decreases AllNodes(children), 0
    {
      ghost var ts := children;
      var c;
      ok, c := NextChildNode();
      more := c != null;
      if more {
        assert AllNodes(ts) == 1 + AllNodes(ts[0].children) + AllNodes(ts[1..]);
        ok := c.Drop();
      }
    }

    /**
      Whatever has been read of the node, dropping it leaves the cursor just behind its end token.
      It stops exactly if a name in what has not been read is no text.
      */
    method Drop() returns (ok: bool)
      requires Valid()
      modifies this`state, this`props, this`children, interpreter
      ensures ok <==> TextProps(old(props)) && TextTrees(old(children))
      ensures ok ==> Valid() && state == Empty && interpreter.pc == end
      ensures ok ==> interpreter.nodeCount == old(interpreter.nodeCount) + old(Uncounted())
      decreases AllNodes(children), 1
    {
      hide HasBody, Utf8;
      ok := SkipProperties();
      var more := ok;
      while more
        invariant if ok then TextTrees(children)
                  <==> TextTrees(old(children)) else !(TextProps(old(props)) && TextTrees(old(children)))
        invariant ok ==> TextProps(old(props)) && Valid() && state != Properties && (!more ==> state == Empty)
        invariant ok ==> AllNodes(children) <= old(AllNodes(children))
        invariant ok ==> interpreter.nodeCount + Uncounted() == old(interpreter.nodeCount + Uncounted())
        invariant more ==> ok
        decreases more, |children|
      {
        ok, more := DropNextChild();
        more := ok && more;
      }
    }

    method ReadProps() returns (ok: bool, r: seq<Property>)
      requires Valid() && state == Properties
      modifies this`state, this`props, interpreter`pc
      ensures ok <==> TextProps(old(props))
      ensures ok ==> Valid() && r == old(props) && props == [] && state == ChildNodes
    {
      hide HasBody, Utf8;
      ok, r := true, [];
      var more := true;
      while more
        invariant if ok then TextProps(props) <==> TextProps(old(props)) else !TextProps(old(props))
        invariant ok ==> Valid() && r + props == old(props)
        invariant ok ==> if more then state == Properties else state == ChildNodes && props == []
        invariant more ==> ok
        decreases more, |props|
      {
        var p;
        ok, p := NextProperty();
        more := ok && p.Some?;
        if more { r := r + [p.value]; }
      }
    }

    /** The next child with everything below it. */
    method ReadNextChild() returns (ok: bool, t: Option<Tree>)
      requires Valid() && state == ChildNodes
      modifies this`state, this`children, interpreter
      ensures ok <==> old(children) == [] || TextTree(old(children)[0])
      ensures ok ==> Valid() && t == if old(children) == [] then None else Some(old(children)[0])
      ensures ok && t.Some? ==> state == ChildNodes && children == old(children)[1..]
      ensures ok && t.None? ==> state == Empty
      ensures ok ==> AllNodes(children) <= old(AllNodes(children))
      decreases AllNodes(children), 0
    {
      ghost var ts := children;
      var c;
      ok, c := NextChildNode();
      t := None;
      if c != null {
        assert AllNodes(ts) == 1 + AllNodes(ts[0].children) + AllNodes(ts[1..]);
        var child;
        ok, child := c.ReadAll();
        t := Some(child);
      }
    }

    /**
      Everything the kernel reader finds below a node: the tree that is in the block, exactly if all names in it are
      text.
      */
    method ReadAll() returns (ok: bool, t: Tree)
      requires Valid() && state == Properties
      modifies this`state, this`props, this`children, interpreter
      ensures ok <==> TextProps(old(props)) && TextTrees(old(children))
      ensures ok ==> Valid() && state == Empty && t == Tree(name, old(props), old(children))
      decreases AllNodes(children), 1
    {
      hide HasBody, Utf8;
      var ps;
      ok, ps := ReadProps();
      var ts := [];
      var more := ok;
      while more
        invariant if ok then TextTrees(children)
                  <==> TextTrees(old(children)) else !(TextProps(old(props)) && TextTrees(old(children)))
        invariant ok ==> TextProps(old(props)) && ps == old(props) && Valid() && ts + children == old(children)
        invariant ok ==> AllNodes(children) <= old(AllNodes(children))
        invariant ok ==> if more then state == ChildNodes else state == Empty && children == []
        invariant more ==> ok
        decreases more, |children|
      {
        var c;
        ok, c := ReadNextChild();
        more := ok && c.Some?;
        if more { ts := ts + [c.value]; }
      }
      t := Tree(name, ps, ts);
    }
  }

  // ---------------------------------------------------------------- the format is unambiguous

  lemma PropUnique(b: Blob, at: nat, p: Property, q: Property)
    requires HasProp(b, at, p) && HasProp(b, at, q)
    ensures p == q
  {
  }

  /** Two readings of a node's properties are the same and leave the same children. */
  lemma {:induction false} PropsUnique(b: Blob, at: nat, ps: seq<Property>, ts: seq<Tree>, end: nat,
                                       ps': seq<Property>, ts': seq<Tree>, end': nat)
    requires HasBody(b, at, ps, ts, end) && HasBody(b, at, ps', ts', end')
    ensures ps == ps' && HasBody(b, at + PropsWords(ps), [], ts, end) && HasBody(b, at + PropsWords(ps), [], ts', end')
    decreases |ps|
  {
    BodyInRange(b, at, ps, ts, end);
    BodyInRange(b, at, ps', ts', end');
    if ps != [] {
      BodyProp(b, at, ps, ts, end);
      BodyProp(b, at, ps', ts', end');
      PropUnique(b, at, ps[0], ps'[0]);
      var next := at + PropWords(ps[0]);
      PropsUnique(b, next, ps[1..], ts, end, ps'[1..], ts', end');
      assert ps == [ps[0]] + ps[1..] && ps' == [ps'[0]] + ps'[1..];
      assert at + PropsWords(ps) == next + PropsWords(ps[1..]);
    }
  }

  lemma {:induction false} ChildrenUnique(b: Blob, at: nat, ts: seq<Tree>, end: nat, ts': seq<Tree>, end': nat)
    requires HasBody(b, at, [], ts, end) && HasBody(b, at, [], ts', end')
    ensures ts == ts' && end == end'
    decreases ts, 0
  {
    hide HasTree, HasTrees;
    BodyInRange(b, at, [], ts, end);
    BodyInRange(b, at, [], ts', end');
    if ts != [] {
      BodyChild(b, at, ts, end);
      BodyChild(b, at, ts', end');
      TreeUnique(b, at, ts[0], ts'[0]);
      ChildrenUnique(b, at + TreeWords(ts[0]), ts[1..], end, ts'[1..], end');
      assert ts == [ts[0]] + ts[1..] && ts' == [ts'[0]] + ts'[1..];
    }
  }

  /** At most one tree is in a block. */
  lemma {:induction false} TreeUnique(b: Blob, at: nat, t: Tree, t': Tree)
    requires HasTree(b, at, t) && HasTree(b, at, t')
    ensures t == t'
    decreases t
  {
    hide HasTree, HasBody;
    TreeBody(b, at, t);
    TreeBody(b, at, t');
    var start, end, end' := at + 1 + NameWords(t.name), at + TreeWords(t), at + TreeWords(t');
    assert t.name == t'.name;
    BodyUnique(b, start, t.props, t.children, end, t'.props, t'.children, end');
  }

  lemma BodyUnique(b: Blob, at: nat, ps: seq<Property>, ts: seq<Tree>, end: nat, ps': seq<Property>, ts': seq<Tree>,
                   end': nat)
    requires HasBody(b, at, ps, ts, end) && HasBody(b, at, ps', ts', end')
    ensures ps == ps' && ts == ts'
    decreases ts, 1
  {
    PropsUnique(b, at, ps, ts, end, ps', ts', end');
    ChildrenUnique(b, at + PropsWords(ps), ts, end, ts', end');
  }
}
