/**
 * The hierarchical `CON::Object` node: a map from identifier to child node and
 * the literal text of a leaf, with the lookups and casts the header exposes.
 * Every accessor of the source is `const`, so each is a pure function here.
 */
module ConObject {
  import opened ConText
  import opened ConError

  /** `CON::Type`: the value kinds the header declares.  There is no array kind. */
  datatype Kind = Null | String | Integer | Float | Boolean | Object

  /**
   * An `Object`: its children keyed by identifier (a `std::map`, so one child
   * per identifier) and the literal text it holds when it is a leaf.
   */
  datatype Node = Node(children: map<string, Node>, value: string)

  /** `isObject()`: a node is an object exactly when it has some child. */
  predicate IsObject(n: Node)
    ensures IsObject(n) <==> exists id :: id in n.children
  {
    |n.children| > 0
  }

  /** The interpretations the `as*` accessors offer, named as in their error text. */
  datatype Target = ToString | ToInteger | ToFloat | ToDouble | ToBool

  function TargetName(t: Target): string
  {
    match t
    case ToString => "string"
    case ToInteger => "integer"
    case ToFloat => "float"
    case ToDouble => "double"
    case ToBool => "bool"
  }

  /**
   * The guard every `as*` accessor starts with: an object cannot be cast, and a
   * leaf hands its literal text on to the conversion.
   */
  function Cast(n: Node, t: Target): (r: Result<string>)
    ensures r.Failure? <==> exists id :: id in n.children
    ensures r.Success? ==> r.value == n.value
    ensures r.Failure? ==> r.error == MessageException("Cannot cast object to " + TargetName(t))
  {
    if IsObject(n) then Failure(MessageException("Cannot cast object to " + TargetName(t)))
    else Success(n.value)
  }

  /** `asString()`: the stored literal, unchanged, unless the node has children. */
  function AsString(n: Node): (r: Result<string>)
    ensures r.Failure? <==> exists id :: id in n.children
    ensures r.Success? ==> r.value == n.value
    ensures r.Failure? ==> Number(r.error) == 0 && What(r.error) == "Cannot cast object to string"
  {
    Cast(n, ToString)
  }

  /** The text of the error `get` throws for an identifier that is not a child. */
  function NotFoundText(id: string): string
  {
    "Could not file identifier \"" + id + "\" in children"
  }

  /** `get( identifier )`: the child stored under `id`, or a not-found error. */
  function Get(n: Node, id: string): (r: Result<Node>)
    ensures r.Success? <==> id in n.children
    ensures r.Success? ==> r.value == n.children[id]
    ensures r.Failure? ==> Number(r.error) == 0 && What(r.error) == NotFoundText(id)
  {
    if id in n.children then Success(n.children[id])
    else Failure(MessageException(NotFoundText(id)))
  }

  /** `operator[]( id )`: the same lookup as `get`. */
  function Index(n: Node, id: string): (r: Result<Node>)
    ensures r.Success? <==> id in n.children
    ensures r.Success? ==> r.value == n.children[id]
    ensures r.Failure? ==> Number(r.error) == 0 && What(r.error) == NotFoundText(id)
    ensures r == Get(n, id)
  {
    Get(n, id)
  }

  // ---------------------------------------------------------------------------
  // The order a `std::map<std::string, Object*>` keeps its identifiers in

  /** `a < b` on `std::string`: lexicographic, a proper prefix coming first. */
  predicate Before(a: string, b: string)
    decreases |a|
  {
    if |b| == 0 then false
    else if |a| == 0 then true
    else if a[0] != b[0] then a[0] < b[0]
    else Before(a[1..], b[1..])
  }

  lemma {:induction false} BeforeIrreflexive(a: string)
    ensures !Before(a, a)
    decreases |a|
  {
    if |a| > 0 {
      BeforeIrreflexive(a[1..]);
    }
  }

  lemma {:induction false} BeforeTransitive(a: string, b: string, c: string)
    requires Before(a, b) && Before(b, c)
    ensures Before(a, c)
    decreases |a|
  {
    if |a| > 0 && a[0] == b[0] && b[0] == c[0] {
      BeforeTransitive(a[1..], b[1..], c[1..]);
    }
  }

  /** Any two distinct identifiers are ordered one way or the other. */
  lemma {:induction false} BeforeTotal(a: string, b: string)
    ensures a == b || Before(a, b) || Before(b, a)
    decreases |a|
  {
    if |a| > 0 && |b| > 0 && a[0] == b[0] {
      BeforeTotal(a[1..], b[1..]);
      if a[1..] == b[1..] {
        assert a == [a[0]] + a[1..] && b == [b[0]] + b[1..];
      }
    }
  }

  /** The least identifier of a non-empty set of identifiers. */
  method LeastIdentifier(ids: set<string>) returns (least: string)
    requires ids != {}
    ensures least in ids
    ensures forall id :: id in ids && id != least ==> Before(least, id)
  {
    least :| least in ids;
    var rest := ids - {least};
    while rest != {}
      invariant rest <= ids && least in ids && least !in rest
      invariant forall id :: id in ids - rest && id != least ==> Before(least, id)
      decreases rest
    {
      var id :| id in rest;
      if Before(id, least) {
        forall other | other in ids - rest && other != id
          ensures Before(id, other)
        {
          if other != least {
            BeforeTransitive(id, least, other);
          }
        }
        least := id;
      } else {
        BeforeTotal(id, least);
      }
      rest := rest - {id};
    }
  }

  /**
   * The identifiers of a node in the order iterating its `std::map` visits
   * them: every child exactly once, in strictly increasing order.
   */
  method Identifiers(n: Node) returns (ids: seq<string>)
    ensures forall i, j :: 0 <= i < j < |ids| ==> Before(ids[i], ids[j])
    ensures forall id :: id in ids <==> id in n.children
    ensures |ids| == |n.children|
  {
    var rest := n.children.Keys;
    ids := [];
    while rest != {}
      invariant rest <= n.children.Keys
      invariant forall id :: id in ids <==> id in n.children && id !in rest
      invariant forall i, j :: 0 <= i < j < |ids| ==> Before(ids[i], ids[j])
      invariant forall i, id :: 0 <= i < |ids| && id in rest ==> Before(ids[i], id)
      invariant |ids| + |rest| == |n.children|
      decreases rest
    {
      var least := LeastIdentifier(rest);
      ids := ids + [least];
      rest := rest - {least};
    }
  }
}
