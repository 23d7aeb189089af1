/** Shared record vocabulary: an optional value, and the open, dict-shaped
    documents (`frappe._dict`) that the endpoints pass around. */
module Records {

  datatype Option<+T> = None | Some(value: T)

  /** A field value of a document, as far as the endpoints look at it. */
  datatype Value = VNull | VInt(i: int) | VReal(r: real) | VStr(s: string)

  /** A document is an open mapping from field names to values. */
  type Doc = map<string, Value>

  /** Python truthiness of a field value. */
  predicate Truthy(v: Value)
  {
    match v
    case VNull => false
    case VInt(i) => i != 0
    case VReal(r) => r != 0.0
    case VStr(s) => s != ""
  }

  /** `d.get(key)`: the value stored under `key`, or None (VNull) when absent. */
  function Get(d: Doc, key: string): (v: Value)
    ensures key !in d ==> v == VNull
    ensures key in d ==> v == d[key]
  {
    if key in d then d[key] else VNull
  }

  /** `dict.update`: the keys of `extra` overwrite, every other key is kept. */
  function Update(d: Doc, extra: Doc): (r: Doc)
    ensures r.Keys == d.Keys + extra.Keys
    ensures forall k :: k in extra ==> r[k] == extra[k]
    ensures forall k :: k in d && k !in extra ==> r[k] == d[k]
  {
    d + extra
  }

  /** Position of the first occurrence of `x` in `s`, or `|s|` when there is none
      (`list.index` without the error, and `str.find` with the length for -1). */
  function IndexOf<T(==)>(s: seq<T>, x: T): (i: nat)
    ensures i <= |s|
    ensures i < |s| <==> x in s
    ensures i < |s| ==> s[i] == x
    ensures x !in s[..i]
  {
    if s == [] then 0
    else if s[0] == x then 0
    else
      assert s[1..][..IndexOf(s[1..], x)] == s[1..1 + IndexOf(s[1..], x)];
      1 + IndexOf(s[1..], x)
  }

  /** Appending an element moves no first occurrence, and a new element is found at the end. */
  lemma IndexOfAppend<T>(s: seq<T>, y: T)
    ensures forall x :: x in s ==> IndexOf(s + [y], x) == IndexOf(s, x)
    ensures y !in s ==> IndexOf(s + [y], y) == |s|
  {
    forall x | x in s ensures IndexOf(s + [y], x) == IndexOf(s, x) {
      var i, j := IndexOf(s + [y], x), IndexOf(s, x);
      assert (s + [y])[j] == x;
    }
  }
}
