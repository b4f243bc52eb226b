/** The values a YAML document loads into, as JavaScript sees them, with the
    property reads, truthiness and `Object.entries` behaviour the generator
    relies on. `undefined` is `None` of an `Option<Value>`. */
module JsValue {
  import opened Wrappers
  import opened Assoc

  /** A loaded value. Objects keep their keys in document order. */
  datatype Value =
    | Null
    | Bool(b: bool)
    | Num(n: real)
    | Str(s: string)
    | Arr(items: seq<Value>)
    | Obj(fields: seq<(string, Value)>)

  /** JavaScript truthiness of a possibly undefined value: `undefined`, `null`,
      `false`, `0` and `""` are falsy, everything else (including `[]` and `{}`)
      is truthy. */
  predicate Truthy(v: Option<Value>) {
    match v
    case None => false
    case Some(Null) => false
    case Some(Bool(b)) => b
    case Some(Num(n)) => n != 0.0
    case Some(Str(s)) => s != []
    case Some(Arr(_)) => true
    case Some(Obj(_)) => true
  }

  /** `null` or `undefined`: the values whose property reads throw. */
  predicate Nullish(v: Option<Value>) {
    v.None? || v.value.Null?
  }

  predicate IsDigit(c: char) {
    '0' <= c <= '9'
  }

  function DigitsValue(s: string): nat
    requires forall i :: 0 <= i < |s| ==> IsDigit(s[i])
  {
    if s == [] then 0
    else
      assert IsDigit(s[|s| - 1]);
      DigitsValue(s[..|s| - 1]) * 10 + (s[|s| - 1] as int - '0' as int)
  }

  /** The index an array-index property name denotes: a non-empty run of
      decimal digits without a leading zero (other than "0" itself). */
  function ArrayIndex(key: string): (r: Option<nat>)
    ensures r.Some? ==> key != [] && forall i :: 0 <= i < |key| ==> IsDigit(key[i])
  {
    if key != [] && (forall i :: 0 <= i < |key| ==> IsDigit(key[i]))
       && (key[0] != '0' || |key| == 1)
    then Some(DigitsValue(key))
    else None
  }

  /** The decimal spelling of an index, as `Object.entries` names array slots. */
  function IndexName(n: nat): (s: string)
    ensures s != [] && forall i :: 0 <= i < |s| ==> IsDigit(s[i])
  {
    var d := ['0' + (n % 10) as char];
    if n < 10 then d else IndexName(n / 10) + d
  }

  /** The digits of an index read back as that index, and only `0` itself
      starts with a zero. */
  lemma {:induction false} IndexNameValue(n: nat)
    ensures DigitsValue(IndexName(n)) == n
    ensures n > 0 ==> IndexName(n)[0] != '0'
  {
    var d := ['0' + (n % 10) as char];
    if n >= 10 {
      IndexNameValue(n / 10);
      var p := IndexName(n / 10);
      assert IndexName(n) == p + d;
      assert (p + d)[..|p|] == p;
    }
  }

  /** The name `Object.entries` gives an array slot is read back by a
      property access as the same index. */
  lemma IndexNameRoundTrip(n: nat)
    ensures ArrayIndex(IndexName(n)) == Some(n)
  {
    IndexNameValue(n);
  }

  /** `v[key]` for a value that is not null: the own property of an object,
      an element or the length of an array, a one-character string or the
      length of a string; `undefined` otherwise. */
  function Member(v: Value, key: string): (r: Option<Value>)
    ensures v.Obj? ==> r == Lookup(v.fields, key)
    ensures v.Null? || v.Bool? || v.Num? ==> r.None?
  {
    match v
    case Obj(fields) => Lookup(fields, key)
    case Arr(items) =>
      if key == "length" then Some(Num(|items| as real))
      else (match ArrayIndex(key)
            case Some(i) => if i < |items| then Some(items[i]) else None
            case None => None)
    case Str(s) =>
      if key == "length" then Some(Num(|s| as real))
      else (match ArrayIndex(key)
            case Some(i) => if i < |s| then Some(Str([s[i]])) else None
            case None => None)
    case _ => None
  }

  /** `v.key` on a possibly undefined value: throws on `null` and `undefined`. */
  function Get(v: Option<Value>, key: string): (r: Outcome<Option<Value>>)
    ensures r.Thrown? <==> Nullish(v)
    ensures r.Done? ==> r.value == Member(v.value, key)
  {
    if Nullish(v) then Thrown else Done(Member(v.value, key))
  }

  /** `Object.entries(v)` for a value that is not null: an object gives its
      fields, an array or a string its indexed slots, anything else none. */
  function OwnEntries(v: Value): (r: seq<(string, Value)>)
    ensures v.Obj? ==> r == v.fields
    ensures v.Arr? ==> |r| == |v.items|
    ensures v.Str? ==> |r| == |v.s|
    ensures v.Null? || v.Bool? || v.Num? ==> r == []
  {
    match v
    case Obj(fields) => fields
    case Arr(items) => seq(|items|, i requires 0 <= i < |items| => (IndexName(i), items[i]))
    case Str(s) => seq(|s|, i requires 0 <= i < |s| => (IndexName(i), Str([s[i]])))
    case _ => []
  }

  /** `Object.entries(v)`: throws on `null` and `undefined`. */
  function Entries(v: Option<Value>): (r: Outcome<seq<(string, Value)>>)
    ensures r.Thrown? <==> Nullish(v)
    ensures r.Done? ==> r.value == OwnEntries(v.value)
  {
    if Nullish(v) then Thrown else Done(OwnEntries(v.value))
  }

  /** `Object.entries` and a property read throw on the same values, and
      every entry `[k, x]` reads back: `v[k]` is `x`. An object is taken to
      have distinct keys, as a loaded document does. */
  lemma EntriesReadBack(v: Option<Value>)
    requires v.Some? && v.value.Obj? ==> DistinctKeys(v.value.fields)
    ensures forall key :: Get(v, key).Thrown? <==> Entries(v).Thrown?
    ensures Entries(v).Done? ==>
              forall i :: 0 <= i < |Entries(v).value| ==>
                Get(v, Entries(v).value[i].0) == Done(Some(Entries(v).value[i].1))
  {
    if !Nullish(v) {
      var w := v.value;
      var es := OwnEntries(w);
      forall i | 0 <= i < |es|
        ensures Member(w, es[i].0) == Some(es[i].1)
      {
        if w.Obj? {
          LookupEntry(w.fields, i);
        } else {
          IndexNameRoundTrip(i);
          assert es[i].0 == IndexName(i);
          assert IndexName(i) != "length" by {
            assert IsDigit(IndexName(i)[0]) && !IsDigit('l');
          }
        }
      }
    }
  }
}
