/**
 * JSON values as the store holds them, with the small part of JavaScript's
 * value semantics the store relies on: truthiness, `typeof`, and own
 * properties of objects, arrays and strings.
 */
module Values {
  import opened Wrappers

  /** A JSON value. Numbers are modelled as integers. */
  datatype Json =
    | Null
    | Bool(b: bool)
    | Num(n: int)
    | Str(s: string)
    | Arr(items: seq<Json>)
    | Obj(members: seq<Member>)

  /** One own property of an object; an object lists its properties in insertion order. */
  datatype Member = Member(name: string, value: Json)

  /** JavaScript truthiness (`!!v`). */
  predicate Truthy(v: Json) {
    match v
    case Null => false
    case Bool(b) => b
    case Num(n) => n != 0
    case Str(s) => s != ""
    case Arr(_) => true
    case Obj(_) => true
  }

  /** `typeof v === 'object'`: true of `null`, arrays and objects. */
  predicate IsObjectType(v: Json) {
    v.Null? || v.Arr? || v.Obj?
  }

  /** A primitive other than `null`. */
  predicate IsPrimitive(v: Json) {
    v.Bool? || v.Num? || v.Str?
  }

  /** The property names of an object, in order. */
  function Names(ms: seq<Member>): (r: seq<string>)
    ensures |r| == |ms|
    ensures forall i :: 0 <= i < |ms| ==> r[i] == ms[i].name
  {
    if |ms| == 0 then [] else [ms[0].name] + Names(ms[1..])
  }

  /** The properties of `v` if it is an object, and none otherwise. */
  function Fields(v: Json): seq<Member> {
    if v.Obj? then v.members else []
  }

  /** Reads property `k` of an object (`o[k]`, `undefined` when absent). */
  function Lookup(ms: seq<Member>, k: string): Option<Json> {
    if |ms| == 0 then None
    else if ms[0].name == k then Some(ms[0].value)
    else Lookup(ms[1..], k)
  }

  /**
   * Assigns property `k` of an object (`o[k] = x`): an existing property
   * keeps its place, a new one is added last.
   */
  function Put(ms: seq<Member>, k: string, x: Json): (r: seq<Member>)
    ensures Lookup(r, k) == Some(x)
    ensures forall k' :: k' != k ==> Lookup(r, k') == Lookup(ms, k')
  {
    if |ms| == 0 then [Member(k, x)]
    else if ms[0].name == k then
      var r := [Member(k, x)] + ms[1..];
      assert r[1..] == ms[1..];
      r
    else
      var rest := Put(ms[1..], k, x);
      var r := [ms[0]] + rest;
      assert r[1..] == rest;
      r
  }

  /** Deletes property `k` of an object (`delete o[k]`). */
  function Remove(ms: seq<Member>, k: string): (r: seq<Member>)
    ensures Lookup(r, k) == None
    ensures forall k' :: k' != k ==> Lookup(r, k') == Lookup(ms, k')
    ensures forall n :: n in Names(r) <==> n in Names(ms) && n != k
  {
    if |ms| == 0 then []
    else if ms[0].name == k then Remove(ms[1..], k)
    else
      var rest := Remove(ms[1..], k);
      var r := [ms[0]] + rest;
      assert r[1..] == rest;
      r
  }

  /** An assigned property keeps its position; a new property is appended. */
  lemma {:induction false} PutNames(ms: seq<Member>, k: string, x: Json)
    ensures Names(Put(ms, k, x)) == if k in Names(ms) then Names(ms) else Names(ms) + [k]
  {
    if |ms| > 0 {
      var r := Put(ms, k, x);
      assert Names(r) == [r[0].name] + Names(r[1..]);
      assert Names(ms) == [ms[0].name] + Names(ms[1..]);
      if ms[0].name != k {
        PutNames(ms[1..], k, x);
        assert r[1..] == Put(ms[1..], k, x);
      } else {
        assert r[1..] == ms[1..];
      }
    }
  }

  /** A property read finds a value exactly when the name is present. */
  lemma {:induction false} LookupNames(ms: seq<Member>, k: string)
    ensures Lookup(ms, k).Some? <==> k in Names(ms)
  {
    if |ms| > 0 {
      assert Names(ms) == [ms[0].name] + Names(ms[1..]);
      LookupNames(ms[1..], k);
    }
  }

  /** A name held by no member reads `undefined`. */
  lemma {:induction false} LookupMissing(ms: seq<Member>, k: string)
    requires forall j :: 0 <= j < |ms| ==> ms[j].name != k
    ensures Lookup(ms, k) == None
  {
    if |ms| > 0 {
      assert forall j :: 0 <= j < |ms[1..]| ==> ms[1..][j] == ms[j + 1];
      LookupMissing(ms[1..], k);
    }
  }

  /** No two members share a name, as in every JavaScript object. */
  predicate DistinctNames(ms: seq<Member>) {
    forall i, j :: 0 <= i < j < |ms| ==> ms[i].name != ms[j].name
  }

  /** With distinct names, a member is what a lookup of its name finds. */
  lemma {:induction false} LookupMember(ms: seq<Member>, i: nat)
    requires DistinctNames(ms) && i < |ms|
    ensures Lookup(ms, ms[i].name) == Some(ms[i].value)
  {
    if i > 0 {
      assert ms[0].name != ms[i].name;
      assert ms[1..][i - 1] == ms[i];
      LookupMember(ms[1..], i - 1);
    }
  }

  /** With distinct names, a member's name does not occur after it. */
  lemma LookupAfter(ms: seq<Member>, i: nat)
    requires DistinctNames(ms) && i < |ms|
    ensures Lookup(ms[i + 1..], ms[i].name) == None
  {
    var rest := ms[i + 1..];
    forall j | 0 <= j < |rest|
      ensures rest[j].name != ms[i].name
    {
      assert rest[j] == ms[i + 1 + j];
    }
    LookupMissing(rest, ms[i].name);
  }

  /** Writing back the value a property already holds changes nothing. */
  lemma {:induction false} PutSame(ms: seq<Member>, k: string, x: Json)
    requires Lookup(ms, k) == Some(x)
    ensures Put(ms, k, x) == ms
  {
    if ms[0].name != k {
      PutSame(ms[1..], k, x);
    }
  }

  /** A second assignment to the same property overrides the first. */
  lemma {:induction false} PutPut(ms: seq<Member>, k: string, x: Json, y: Json)
    ensures Put(Put(ms, k, x), k, y) == Put(ms, k, y)
  {
    if |ms| > 0 && ms[0].name != k {
      PutPut(ms[1..], k, x, y);
    }
  }

  /** Every character of `s` is a decimal digit. */
  predicate AllDigits(s: string) {
    |s| == 0 || ('0' <= s[0] <= '9' && AllDigits(s[1..]))
  }

  /** The value of a decimal numeral, read most significant digit first. */
  function DigitsValue(s: string, acc: nat): nat
    requires AllDigits(s)
  {
    if |s| == 0 then acc else DigitsValue(s[1..], 10 * acc + (s[0] as int - '0' as int))
  }

  /** The array index a property name denotes: a decimal numeral without leading zeros. */
  function ArrayIndex(k: string): Option<nat> {
    if |k| > 0 && AllDigits(k) && (k[0] != '0' || |k| == 1) then Some(DigitsValue(k, 0)) else None
  }

  /** The character of decimal digit `d`. */
  function Digit(d: nat): char
    requires d < 10
  {
    ('0' as int + d) as char
  }

  /** The decimal numeral of `n` without leading zeros: the property name of index `n`. */
  function Numeral(n: nat): string
    decreases n
  {
    if n < 10 then [Digit(n)] else Numeral(n / 10) + [Digit(n % 10)]
  }

  lemma {:induction false} AllDigitsAppend(s: string, c: char)
    ensures AllDigits(s + [c]) <==> AllDigits(s) && '0' <= c <= '9'
  {
    if |s| > 0 {
      assert (s + [c])[1..] == s[1..] + [c];
      AllDigitsAppend(s[1..], c);
    } else {
      assert (s + [c])[1..] == [];
    }
  }

  /** Reading one more digit multiplies the value so far by ten and adds the digit. */
  lemma {:induction false} DigitsValueAppend(s: string, c: char, acc: nat)
    requires AllDigits(s) && '0' <= c <= '9'
    ensures AllDigits(s + [c])
    ensures DigitsValue(s + [c], acc) == 10 * DigitsValue(s, acc) + (c as int - '0' as int)
  {
    AllDigitsAppend(s, c);
    if |s| > 0 {
      assert (s + [c])[1..] == s[1..] + [c];
      DigitsValueAppend(s[1..], c, 10 * acc + (s[0] as int - '0' as int));
    } else {
      assert (s + [c])[1..] == [];
    }
  }

  /** A numeral with a non-zero leading digit is worth at least one. */
  lemma {:induction false} DigitsValueLeading(s: string, acc: nat)
    requires AllDigits(s) && |s| > 0 && s[0] != '0'
    ensures DigitsValue(s, acc) >= 1
  {
    DigitsValueAtLeast(s[1..], 10 * acc + (s[0] as int - '0' as int));
  }

  lemma {:induction false} DigitsValueAtLeast(s: string, acc: nat)
    requires AllDigits(s)
    ensures DigitsValue(s, acc) >= acc
  {
    if |s| > 0 {
      DigitsValueAtLeast(s[1..], 10 * acc + (s[0] as int - '0' as int));
    }
  }

  /** The numeral of `n` is a canonical index name that denotes `n`. */
  lemma {:induction false} ArrayIndexNumeral(n: nat)
    ensures ArrayIndex(Numeral(n)) == Some(n)
    ensures n > 0 ==> Numeral(n)[0] != '0'
    decreases n
  {
    if n < 10 {
      var k := Numeral(n);
      assert k[1..] == [];
      assert AllDigits(k);
      assert DigitsValue(k, 0) == DigitsValue([], n);
    } else {
      var h := Numeral(n / 10);
      var c := Digit(n % 10);
      ArrayIndexNumeral(n / 10);
      DigitsValueAppend(h, c, 0);
      assert c as int - '0' as int == n % 10;
      assert DigitsValue(h + [c], 0) == n;
      assert Numeral(n) == h + [c] && Numeral(n)[0] == h[0];
    }
  }

  /** A canonical index name is the numeral of the index it denotes. */
  lemma {:induction false} NumeralArrayIndex(k: string)
    requires ArrayIndex(k).Some?
    ensures k == Numeral(ArrayIndex(k).value)
    decreases |k|
  {
    if |k| > 1 {
      var h := k[..|k| - 1];
      var c := k[|k| - 1];
      assert k == h + [c];
      AllDigitsAppend(h, c);
      assert h[0] == k[0];
      DigitsValueLeading(h, 0);
      DigitsValueAppend(h, c, 0);
      NumeralArrayIndex(h);
      var i := DigitsValue(k, 0);
      var j := DigitsValue(h, 0);
      assert i == 10 * j + (c as int - '0' as int);
      assert i / 10 == j && Digit(i % 10) == c;
    } else {
      assert k[1..] == [];
      assert DigitsValue(k, 0) == k[0] as int - '0' as int;
    }
  }

  /**
   * The own properties of an array: `length`, and the canonical numeral of
   * each index below the length, which reads that element.
   */
  lemma ArrayOwnProperties(items: seq<Json>, k: string)
    ensures OwnProperty(Arr(items), k).Some? <==>
      k == "length" || exists i :: 0 <= i < |items| && k == Numeral(i)
    ensures forall i :: 0 <= i < |items| ==> OwnProperty(Arr(items), Numeral(i)) == Some(items[i])
  {
    forall i | 0 <= i < |items|
      ensures OwnProperty(Arr(items), Numeral(i)) == Some(items[i])
    {
      ArrayIndexNumeral(i);
      assert Numeral(i)[0] != 'l';
    }
    if ArrayIndex(k).Some? {
      NumeralArrayIndex(k);
    }
  }

  /**
   * The own properties of a string: `length`, and the canonical numeral of
   * each position below the length, which reads that one character.
   */
  lemma StringOwnProperties(s: string, k: string)
    ensures OwnProperty(Str(s), k).Some? <==>
      k == "length" || exists i :: 0 <= i < |s| && k == Numeral(i)
    ensures forall i :: 0 <= i < |s| ==> OwnProperty(Str(s), Numeral(i)) == Some(Str([s[i]]))
  {
    forall i | 0 <= i < |s|
      ensures OwnProperty(Str(s), Numeral(i)) == Some(Str([s[i]]))
    {
      ArrayIndexNumeral(i);
      assert Numeral(i)[0] != 'l';
    }
    if ArrayIndex(k).Some? {
      NumeralArrayIndex(k);
    }
  }

  /**
   * The own property `k` of `v` (what `v.hasOwnProperty(k)` tests and `v[k]`
   * then reads): object members, array elements and `length`, string
   * characters and `length`. Other values have no own properties.
   */
  function OwnProperty(v: Json, k: string): (r: Option<Json>)
    ensures v.Obj? ==> r == Lookup(v.members, k)
    ensures IsPrimitive(v) && !v.Str? ==> r == None
    ensures v.Null? ==> r == None
  {
    match v
    case Obj(ms) => Lookup(ms, k)
    case Arr(items) =>
      if k == "length" then Some(Num(|items|))
      else if ArrayIndex(k).Some? && ArrayIndex(k).value < |items| then Some(items[ArrayIndex(k).value])
      else None
    case Str(s) =>
      if k == "length" then Some(Num(|s|))
      else if ArrayIndex(k).Some? && ArrayIndex(k).value < |s| then Some(Str([s[ArrayIndex(k).value]]))
      else None
    case _ => None
  }

  /** No object inside `v` has a property name containing the key delimiter `:`. */
  predicate ColonFree(v: Json) {
    match v
    case Obj(ms) => forall i :: 0 <= i < |ms| ==> ':' !in ms[i].name && ColonFree(ms[i].value)
    case _ => true
  }
}
