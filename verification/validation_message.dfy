/** A static-validation error message (`GraphQL::StaticValidation::Message`):
    the message text, the path of the offending field, the AST nodes it
    concerns and an optional error code, with the hash form `to_h` that is
    returned to clients. */
module ValidationMessage {
  import opened Wrappers

  /** The position of an AST node; Ruby's `node.line` and `node.col`. */
  datatype Node = Node(line: int, col: int)

  /** An element of a response path: a field name or a list index. */
  datatype PathItem = Key(name: string) | Index(i: int)

  datatype Message = Message(message: string, path: seq<PathItem>, nodes: seq<Node>, code: Option<string>)

  /** A JSON-like value: what `to_h` builds out of strings, integers, arrays
      and string-keyed hashes (kept in insertion order). */
  datatype Value =
    | Str(s: string)
    | Num(n: int)
    | Arr(items: seq<Value>)
    | Obj(pairs: seq<Pair>)

  datatype Pair = Pair(key: string, value: Value)

  /** Ruby `Message.new(message, path: [], nodes: [], code: nil)`; `None`
      for `path` or `nodes` means the keyword was not given. */
  function NewMessage(message: string, path: Option<seq<PathItem>>, nodes: Option<seq<Node>>, code: Option<string>): (m: Message)
    ensures m.message == message && m.code == code
    ensures path.None? ==> m.path == []
    ensures path.Some? ==> m.path == path.value
    ensures nodes.None? ==> m.nodes == []
    ensures nodes.Some? ==> m.nodes == nodes.value
  {
    Message(message,
            match path case Some(p) => p case None => [],
            match nodes case Some(ns) => ns case None => [],
            code)
  }

  function Keys(pairs: seq<Pair>): (r: seq<string>)
    ensures |r| == |pairs|
    ensures forall i :: 0 <= i < |pairs| ==> r[i] == pairs[i].key
  {
    if |pairs| == 0 then [] else [pairs[0].key] + Keys(pairs[1..])
  }

  /** The first value stored under `key`. */
  function Lookup(pairs: seq<Pair>, key: string): (r: Option<Value>)
    ensures r.Some? <==> key in Keys(pairs)
  {
    if |pairs| == 0 then None
    else if pairs[0].key == key then Some(pairs[0].value)
    else
      assert Keys(pairs) == [pairs[0].key] + Keys(pairs[1..]);
      Lookup(pairs[1..], key)
  }

  function Location(node: Node): Value {
    Obj([Pair("line", Num(node.line)), Pair("column", Num(node.col))])
  }

  /** Ruby `locations`: one `{"line", "column"}` hash per node, in node order. */
  function Locations(nodes: seq<Node>): (r: seq<Value>)
    ensures |r| == |nodes|
    ensures forall i :: 0 <= i < |nodes| ==>
              r[i].Obj? && Keys(r[i].pairs) == ["line", "column"] &&
              Lookup(r[i].pairs, "line") == Some(Num(nodes[i].line)) &&
              Lookup(r[i].pairs, "column") == Some(Num(nodes[i].col))
  {
    if |nodes| == 0 then []
    else
      LocationShape(nodes[0]);
      [Location(nodes[0])] + Locations(nodes[1..])
  }

  lemma LocationShape(node: Node)
    ensures Keys(Location(node).pairs) == ["line", "column"]
    ensures Lookup(Location(node).pairs, "line") == Some(Num(node.line))
    ensures Lookup(Location(node).pairs, "column") == Some(Num(node.col))
    ensures ReadNode(Location(node)) == Some(node)
  {
    var pairs := Location(node).pairs;
    assert pairs[1..] == [Pair("column", Num(node.col))];
  }

  lemma LookupThree(p0: Pair, p1: Pair, p2: Pair)
    requires p0.key != p1.key && p0.key != p2.key && p1.key != p2.key
    ensures Keys([p0, p1, p2]) == [p0.key, p1.key, p2.key]
    ensures Lookup([p0, p1, p2], p0.key) == Some(p0.value)
    ensures Lookup([p0, p1, p2], p1.key) == Some(p1.value)
    ensures Lookup([p0, p1, p2], p2.key) == Some(p2.value)
  {
    var pairs := [p0, p1, p2];
    var tail := [p1, p2];
    assert pairs[1..] == tail && tail[1..] == [p2];
    assert Lookup(tail, p1.key) == Some(p1.value);
    assert Lookup(tail[1..], p2.key) == Some(p2.value);
    assert Lookup(tail, p2.key) == Some(p2.value);
  }

  function PathValue(item: PathItem): Value {
    match item
    case Key(name) => Str(name)
    case Index(i) => Num(i)
  }

  /** The path as `to_h` stores it: names as strings, indices as integers. */
  function PathValues(path: seq<PathItem>): (r: seq<Value>)
    ensures |r| == |path|
    ensures forall i :: 0 <= i < |path| ==> r[i] == PathValue(path[i])
  {
    if |path| == 0 then [] else [PathValue(path[0])] + PathValues(path[1..])
  }

  /** Ruby `to_h`: the keys "message", "locations" and "fields" (the path);
      the code is not part of it. */
  function ToH(m: Message): (h: Value)
    ensures h.Obj? && Keys(h.pairs) == ["message", "locations", "fields"]
    ensures Lookup(h.pairs, "message") == Some(Str(m.message))
    ensures Lookup(h.pairs, "locations") == Some(Arr(Locations(m.nodes)))
    ensures Lookup(h.pairs, "fields") == Some(Arr(PathValues(m.path)))
  {
    var fields := Arr(PathValues(m.path));
    var pairs := [Pair("message", Str(m.message)), Pair("locations", Arr(Locations(m.nodes))), Pair("fields", fields)];
    LookupThree(pairs[0], pairs[1], pairs[2]);
    Obj(pairs)
  }

  // ---------------------------------------------------------------------------
  // Reading the hash form back.

  function ReadNode(v: Value): Option<Node> {
    match v
    case Obj(pairs) =>
      (match (Lookup(pairs, "line"), Lookup(pairs, "column"))
       case (Some(Num(line)), Some(Num(col))) => Some(Node(line, col))
       case _ => None)
    case _ => None
  }

  function ReadNodes(vs: seq<Value>): Option<seq<Node>> {
    if |vs| == 0 then Some([])
    else match (ReadNode(vs[0]), ReadNodes(vs[1..]))
      case (Some(n), Some(ns)) => Some([n] + ns)
      case _ => None
  }

  function ReadPathItem(v: Value): Option<PathItem> {
    match v
    case Str(s) => Some(Key(s))
    case Num(i) => Some(Index(i))
    case _ => None
  }

  function ReadPath(vs: seq<Value>): Option<seq<PathItem>> {
    if |vs| == 0 then Some([])
    else match (ReadPathItem(vs[0]), ReadPath(vs[1..]))
      case (Some(p), Some(ps)) => Some([p] + ps)
      case _ => None
  }

  /** A message read back from its hash form; the code is absent there. */
  function FromH(h: Value): Option<Message> {
    match h
    case Obj(pairs) =>
      (match (Lookup(pairs, "message"), Lookup(pairs, "locations"), Lookup(pairs, "fields"))
       case (Some(Str(message)), Some(Arr(locations)), Some(Arr(fields))) =>
         (match (ReadNodes(locations), ReadPath(fields))
          case (Some(nodes), Some(path)) => Some(Message(message, path, nodes, None))
          case _ => None)
       case _ => None)
    case _ => None
  }

  /** The locations list determines the nodes, in order. */
  lemma {:induction false} ReadLocations(nodes: seq<Node>)
    ensures ReadNodes(Locations(nodes)) == Some(nodes)
  {
    if |nodes| > 0 {
      var rest := Locations(nodes[1..]);
      var vs := [Location(nodes[0])] + rest;
      assert Locations(nodes) == vs;
      assert vs[0] == Location(nodes[0]) && vs[1..] == rest;
      ReadLocations(nodes[1..]);
      LocationShape(nodes[0]);
      assert ReadNodes(vs) == Some([nodes[0]] + nodes[1..]);
      assert nodes == [nodes[0]] + nodes[1..];
    }
  }

  lemma {:induction false} ReadPathValues(path: seq<PathItem>)
    ensures ReadPath(PathValues(path)) == Some(path)
  {
    if |path| > 0 {
      var vs := PathValues(path);
      assert vs[0] == PathValue(path[0]) && vs[1..] == PathValues(path[1..]);
      ReadPathValues(path[1..]);
      assert path == [path[0]] + path[1..];
    }
  }

  /** `to_h` keeps everything but the code: reading it back gives the message
      with its code dropped. */
  lemma ToHRoundTrip(m: Message)
    ensures FromH(ToH(m)) == Some(m.(code := None))
  {
    ReadLocations(m.nodes);
    ReadPathValues(m.path);
    FromHOf(ToH(m).pairs, m.message, Locations(m.nodes), PathValues(m.path),
            m.nodes, m.path);
  }

  lemma FromHOf(pairs: seq<Pair>, message: string, locations: seq<Value>, fields: seq<Value>,
                nodes: seq<Node>, path: seq<PathItem>)
    requires Lookup(pairs, "message") == Some(Str(message))
    requires Lookup(pairs, "locations") == Some(Arr(locations))
    requires Lookup(pairs, "fields") == Some(Arr(fields))
    requires ReadNodes(locations) == Some(nodes) && ReadPath(fields) == Some(path)
    ensures FromH(Obj(pairs)) == Some(Message(message, path, nodes, None))
  {
  }

  // ---------------------------------------------------------------------------
  // The helper validators call: `MessageHelper#message`.

  /** The `nodes` argument: nil, one node, or an array of nodes. */
  datatype NodesArg = NoNodes | OneNode(node: Node) | NodeList(nodes: seq<Node>)

  /** Ruby `Array(nodes)`. */
  function ArrayOf(nodes: NodesArg): (r: seq<Node>)
    ensures nodes.NoNodes? ==> r == []
    ensures nodes.OneNode? ==> r == [nodes.node]
    ensures nodes.NodeList? ==> r == nodes.nodes
  {
    match nodes
    case NoNodes => []
    case OneNode(node) => [node]
    case NodeList(ns) => ns
  }

  /** Ruby `message(message, nodes, context:, path:, code:)`: without a path
      the context's path is used (and a missing context raises); the nodes
      are wrapped in an array and the code is passed on. `context` is given
      by its path. */
  function MessageFor(message: string, nodes: NodesArg, context: Option<seq<PathItem>>,
                      path: Option<seq<PathItem>>, code: Option<string>): (r: Result<Message>)
    ensures r.Failure? <==> path.None? && context.None?
    ensures r.Success? ==> r.value.message == message && r.value.code == code
    ensures r.Success? ==> r.value.nodes == ArrayOf(nodes)
    ensures r.Success? && path.Some? ==> r.value.path == path.value
    ensures r.Success? && path.None? ==> r.value.path == context.value
  {
    var p :- match path
             case Some(p) => Success(p)
             case None => if context.Some? then Success(context.value) else Failure("NoMethodError");
    Success(NewMessage(message, Some(p), Some(ArrayOf(nodes)), code))
  }
}
