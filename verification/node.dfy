/**
  The `Node` class of the path editor: a named point with a list of edges.
  Accessors become field reads and updates of an immutable record; the
  edge list only grows through `addEdge` unless replaced wholesale.
*/
module Nodes {
  import opened Geometry
  import opened JsonValue
  import opened Edges

  datatype Node = Node(id: string, x: real, y: real, edges: seq<Edge>)

  /** `new Node(id, x, y)`: no edges yet. */
  function NewNode(id: string, x: real, y: real): (n: Node)
    ensures n.id == id && n.x == x && n.y == y
    ensures n.edges == []
  {
    Node(id, x, y, [])
  }

  /** `addEdge(edge)`: the edge goes last; earlier edges and every other
      field stay as they were. */
  function AddEdge(n: Node, e: Edge): (r: Node)
    ensures |r.edges| == |n.edges| + 1
    ensures r.edges[..|n.edges|] == n.edges && r.edges[|n.edges|] == e
    ensures r.id == n.id && r.x == n.x && r.y == n.y
  {
    n.(edges := n.edges + [e])
  }

  /** A run of `addEdge` calls, in order. */
  function AddEdges(n: Node, es: seq<Edge>): Node
    decreases |es|
  {
    if |es| == 0 then n else AddEdges(AddEdge(n, es[0]), es[1..])
  }

  /** Successive `addEdge` calls append their edges in call order, so the
      edges held before are a prefix of the edges held after. */
  lemma {:induction false} AddEdgesAppends(n: Node, es: seq<Edge>)
    ensures AddEdges(n, es).edges == n.edges + es
    ensures AddEdges(n, es).id == n.id && AddEdges(n, es).x == n.x && AddEdges(n, es).y == n.y
    decreases |es|
  {
    if |es| > 0 {
      AddEdgesAppends(AddEdge(n, es[0]), es[1..]);
      assert n.edges + [es[0]] + es[1..] == n.edges + es;
    }
  }

  /** `set x(value)`. */
  function SetX(n: Node, value: real): (r: Node)
    ensures r.x == value
    ensures r.id == n.id && r.y == n.y && r.edges == n.edges
  {
    n.(x := value)
  }

  /** `set y(value)`. */
  function SetY(n: Node, value: real): (r: Node)
    ensures r.y == value
    ensures r.id == n.id && r.x == n.x && r.edges == n.edges
  {
    n.(y := value)
  }

  /** `set id(value)`. */
  function SetId(n: Node, value: string): (r: Node)
    ensures r.id == value
    ensures r.x == n.x && r.y == n.y && r.edges == n.edges
  {
    n.(id := value)
  }

  /** `set edges(value)`: the list is replaced wholesale. */
  function SetEdges(n: Node, value: seq<Edge>): (r: Node)
    ensures r.edges == value
    ensures r.id == n.id && r.x == n.x && r.y == n.y
  {
    n.(edges := value)
  }

  /** Setting a field to the value it already holds changes nothing, and
      setting it twice keeps only the second value. */
  lemma SettersIdempotent(n: Node, a: real, b: real)
    ensures SetX(n, n.x) == n && SetY(n, n.y) == n
    ensures SetX(SetX(n, a), b) == SetX(n, b) && SetY(SetY(n, a), b) == SetY(n, b)
  {
  }

  /** `toJSON()`: exactly `{id, x, y}`; the edges are not serialised. */
  function ToJson(n: Node): (r: Json)
    ensures r.Obj? && r.fields.Keys == {"id", "x", "y"}
  {
    Obj(map["id" := Str(n.id), "x" := Num(n.x), "y" := Num(n.y)])
  }

  /** Reading `{id, x, y}` back into a node without edges. */
  function NodeOfJson(v: Json): Option<Node>
  {
    var id := Get(v, "id");
    if id.Some? && id.value.Str? && HasNumber(v, "x") && HasNumber(v, "y")
    then Some(NewNode(id.value.s, NumberAt(v, "x"), NumberAt(v, "y")))
    else None
  }

  /** `toJSON` returns exactly the current id and coordinates: reading it
      back gives the node with its edge list dropped. */
  lemma NodeJsonRoundTrip(n: Node)
    ensures NodeOfJson(ToJson(n)) == Some(n.(edges := []))
  {
    var v := ToJson(n);
    assert Get(v, "id") == Some(Str(n.id));
    assert Get(v, "x") == Some(Num(n.x)) && Get(v, "y") == Some(Num(n.y));
  }
}
