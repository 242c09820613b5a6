/** The type schema (`ASTNode` of validation-ast.ts) and the insertion-ordered
    property dictionary that object schemas carry. */
module Schema {
  import opened Common

  /** The value of a literal schema. A bigint literal type produces a bigint
      value at run time even though the declared type does not list it. */
  datatype LitValue = LitString(s: string) | LitNumber(n: int) | LitBool(b: bool) | LitBigInt(big: int)

  /** One entry of a constraints object, in entry order. */
  datatype Constraint = Constraint(key: string, bound: int)

  /** One entry of an object schema's `properties`. The value is `None` when the
      property's type did not resolve: the resolver stores `undefined` there. */
  datatype Property = Property(key: string, value: Option<Schema>)

  /** An absent `constraints` object is the empty sequence. */
  datatype Schema =
    | StringNode(constraints: seq<Constraint>)
    | NumberNode(constraints: seq<Constraint>)
    | BooleanNode
    | ArrayNode(elementType: Schema, constraints: seq<Constraint>)
    | ObjectNode(properties: seq<Property>)
    | UnionNode(types: seq<Schema>)
    | LiteralNode(value: LitValue)
    | TupleNode(types: seq<Schema>)

  /** The `type` tag of a schema node. */
  function Tag(s: Schema): string {
    match s
    case StringNode(_) => "string"
    case NumberNode(_) => "number"
    case BooleanNode => "boolean"
    case ArrayNode(_, _) => "array"
    case ObjectNode(_) => "object"
    case UnionNode(_) => "union"
    case LiteralNode(_) => "literal"
    case TupleNode(_) => "tuple"
  }

  // ----- The properties dictionary, with the semantics of a plain JavaScript object -----

  /** The keys in enumeration order. */
  function Keys(ps: seq<Property>): (ks: seq<string>)
    ensures |ks| == |ps|
    ensures forall i :: 0 <= i < |ps| ==> ks[i] == ps[i].key
  {
    if ps == [] then [] else [ps[0].key] + Keys(ps[1..])
  }

  predicate HasKey(ps: seq<Property>, k: string) {
    k in Keys(ps)
  }

  /** A JavaScript object never holds a key twice. */
  predicate UniqueKeys(ps: seq<Property>) {
    forall i, j :: 0 <= i < j < |ps| ==> ps[i].key != ps[j].key
  }

  /** The value stored under `k` (the first entry with that key). */
  function ValueOf(ps: seq<Property>, k: string): Option<Schema>
    requires HasKey(ps, k)
  {
    if ps[0].key == k then ps[0].value else ValueOf(ps[1..], k)
  }

  /** `ps[k] = v`: an existing key keeps its position and takes the new value,
      a new key is appended at the end. */
  function Put(ps: seq<Property>, k: string, v: Option<Schema>): (r: seq<Property>)
    ensures Keys(r) == if HasKey(ps, k) then Keys(ps) else Keys(ps) + [k]
    ensures HasKey(r, k) && ValueOf(r, k) == v
    ensures forall k' :: k' != k && HasKey(ps, k') ==> ValueOf(r, k') == ValueOf(ps, k')
  {
    if ps == [] then [Property(k, v)]
    else if ps[0].key == k then [Property(k, v)] + ps[1..]
    else [ps[0]] + Put(ps[1..], k, v)
  }

  /** Storing into an object keeps its keys unique. */
  lemma PutKeepsKeysUnique(ps: seq<Property>, k: string, v: Option<Schema>)
    requires UniqueKeys(ps)
    ensures UniqueKeys(Put(ps, k, v))
  {
    var r := Put(ps, k, v);
    forall i, j | 0 <= i < j < |r| ensures r[i].key != r[j].key {
      assert Keys(r)[i] == r[i].key && Keys(r)[j] == r[j].key;
      if !HasKey(ps, k) && j == |ps| {
        assert Keys(ps)[i] == ps[i].key;
      } else {
        assert Keys(ps)[i] == ps[i].key && Keys(ps)[j] == ps[j].key;
      }
    }
  }
}
