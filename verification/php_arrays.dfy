/**
 * PHP's ordered associative arrays, as used for adapter options, posted form
 * fields and metadata records. An array is a sequence of entries in insertion
 * order; well-formed arrays never repeat a key.
 */
module PhpArrays {
  import opened Wrappers

  /** The PHP values that flow through the adapter and the controller. */
  datatype Value =
    | Null
    | Bool(b: bool)
    | Int(i: int)
    | Str(s: string)
    | Arr(entries: seq<Entry>)

  datatype Entry = Entry(key: string, value: Value)

  type PhpArray = seq<Entry>

  /** The keys of an array, in order. */
  function Keys(a: PhpArray): (ks: seq<string>)
    ensures |ks| == |a|
  {
    if |a| == 0 then [] else [a[0].key] + Keys(a[1..])
  }

  /** The key stored at position `i` is among the array's keys. */
  lemma {:induction false} KeyAt(a: PhpArray, i: int)
    requires 0 <= i < |a|
    ensures a[i].key in Keys(a)
    ensures i > 0 ==> a[i].key in Keys(a[1..])
  {
    if i > 0 {
      KeyAt(a[1..], i - 1);
    }
  }

  /** The invariant PHP keeps for every array: no key occurs twice. */
  predicate DistinctKeys(a: PhpArray) {
    |a| == 0 || (a[0].key !in Keys(a[1..]) && DistinctKeys(a[1..]))
  }

  /** Looks a key up; `None` when the key is absent. */
  function Get(a: PhpArray, k: string): (r: Option<Value>)
    ensures r.None? <==> k !in Keys(a)
    ensures r.Some? ==> Entry(k, r.value) in a
  {
    if |a| == 0 then None
    else if a[0].key == k then Some(a[0].value)
    else Get(a[1..], k)
  }

  /** In a well-formed array, a lookup finds the value stored at the key's position. */
  lemma {:induction false} GetAt(a: PhpArray, k: string, i: int)
    requires DistinctKeys(a)
    requires 0 <= i < |a| && a[i].key == k
    ensures Get(a, k) == Some(a[i].value)
  {
    if i > 0 {
      KeyAt(a, i);
      GetAt(a[1..], k, i - 1);
    }
  }

  /** `$a[$k]` as an rvalue: reading a missing key yields NULL. */
  function Read(a: PhpArray, k: string): (r: Value)
    ensures k !in Keys(a) ==> r == Null
    ensures k in Keys(a) ==> Entry(k, r) in a
  {
    Get(a, k).GetOr(Null)
  }

  /** `isset($a[$k])`: the key is present and its value is not NULL. */
  function IsSet(a: PhpArray, k: string): (b: bool)
    ensures b <==> k in Keys(a) && Read(a, k) != Null
  {
    Get(a, k).Some? && Get(a, k).value != Null
  }

  /**
   * `$a[$k] = $v`: the key then holds the new value and every other key
   * keeps its value.
   */
  function Put(a: PhpArray, k: string, v: Value): (r: PhpArray)
    ensures Get(r, k) == Some(v)
    ensures forall k' :: k' != k ==> Get(r, k') == Get(a, k')
  {
    if |a| == 0 then [Entry(k, v)]
    else if a[0].key == k then [Entry(k, v)] + a[1..]
    else
      var rest := Put(a[1..], k, v);
      assert ([a[0]] + rest)[1..] == rest;
      [a[0]] + rest
  }

  /** Assigning a present key keeps the order of the keys. */
  lemma {:induction false} PutKeepsKeys(a: PhpArray, k: string, v: Value)
    ensures Get(a, k).Some? ==> Keys(Put(a, k, v)) == Keys(a)
  {
    if |a| > 0 && Get(a, k).Some? {
      var r := Put(a, k, v);
      if a[0].key == k {
        assert r[1..] == a[1..];
      } else {
        PutKeepsKeys(a[1..], k, v);
        assert r[1..] == Put(a[1..], k, v);
      }
    }
  }

  /** Assigning an absent key appends one entry at the end. */
  lemma {:induction false} PutAppends(a: PhpArray, k: string, v: Value)
    ensures Get(a, k).None? ==> Put(a, k, v) == a + [Entry(k, v)]
  {
    if |a| > 0 && Get(a, k).None? {
      calc {
        Put(a, k, v);
        [a[0]] + Put(a[1..], k, v);
        { PutAppends(a[1..], k, v); }
        [a[0]] + (a[1..] + [Entry(k, v)]);
        { assert a == [a[0]] + a[1..]; }
        a + [Entry(k, v)];
      }
    }
  }

  /** Assignment keeps a well-formed array well-formed. */
  lemma {:induction false} PutKeepsDistinct(a: PhpArray, k: string, v: Value)
    ensures DistinctKeys(a) ==> DistinctKeys(Put(a, k, v))
  {
    if |a| > 0 && DistinctKeys(a) {
      if a[0].key == k {
        assert Put(a, k, v)[1..] == a[1..];
      } else {
        var rest := Put(a[1..], k, v);
        PutKeepsDistinct(a[1..], k, v);
        assert Put(a, k, v)[1..] == rest;
        assert Get(rest, a[0].key) == None;
      }
    }
  }

  /** `unset($a[$k])`: the key disappears, every other entry stays in order. */
  function Unset(a: PhpArray, k: string): (r: PhpArray)
    ensures Get(r, k) == None
    ensures forall k' :: k' != k ==> Get(r, k') == Get(a, k')
    ensures Get(a, k).None? ==> r == a
    ensures |r| <= |a|
  {
    if |a| == 0 then []
    else if a[0].key == k then Unset(a[1..], k)
    else
      var rest := Unset(a[1..], k);
      assert ([a[0]] + rest)[1..] == rest;
      [a[0]] + rest
  }

  /** `unset` keeps a well-formed array well-formed. */
  lemma {:induction false} UnsetKeepsDistinct(a: PhpArray, k: string)
    ensures DistinctKeys(a) ==> DistinctKeys(Unset(a, k))
  {
    if |a| > 0 && DistinctKeys(a) {
      var rest := Unset(a[1..], k);
      UnsetKeepsDistinct(a[1..], k);
      if a[0].key != k {
        assert Unset(a, k)[1..] == rest;
        assert Get(rest, a[0].key) == None;
      }
    }
  }

  /** In a well-formed array, assignment to a present key rewrites exactly that slot. */
  lemma {:induction false} PutReplacesInPlace(a: PhpArray, k: string, v: Value, i: int)
    requires DistinctKeys(a)
    requires 0 <= i < |a| && a[i].key == k
    ensures Put(a, k, v) == a[i := Entry(k, v)]
  {
    if i > 0 {
      KeyAt(a, i);
      PutReplacesInPlace(a[1..], k, v, i - 1);
      assert a[1..][i - 1 := Entry(k, v)] == a[i := Entry(k, v)][1..];
    }
  }

  /** Assigning a key the value it already holds leaves the array unchanged. */
  lemma {:induction false} PutSameValue(a: PhpArray, k: string, v: Value)
    requires Get(a, k) == Some(v)
    ensures Put(a, k, v) == a
  {
    if a[0].key != k {
      PutSameValue(a[1..], k, v);
    }
  }

  /** Unsetting the first key of a well-formed array drops just the first entry. */
  lemma UnsetFirst(a: PhpArray)
    requires |a| > 0 && DistinctKeys(a)
    ensures Unset(a, a[0].key) == a[1..]
  {
    assert Get(a[1..], a[0].key).None?;
  }

  /** In a well-formed array, unset removes exactly the one entry holding the key. */
  lemma {:induction false} UnsetRemovesOneEntry(a: PhpArray, k: string, i: int)
    requires DistinctKeys(a)
    requires 0 <= i < |a| && a[i].key == k
    ensures Unset(a, k) == a[..i] + a[i + 1..]
  {
    if i == 0 {
      UnsetFirst(a);
    } else {
      var tail := a[1..];
      assert a[0].key != k by { KeyAt(a, i); }
      calc {
        Unset(a, k);
        [a[0]] + Unset(tail, k);
        { UnsetRemovesOneEntry(tail, k, i - 1); }
        [a[0]] + (tail[..i - 1] + tail[i..]);
        { assert a[..i] == [a[0]] + tail[..i - 1];
          assert a[i + 1..] == tail[i..]; }
        a[..i] + a[i + 1..];
      }
    }
  }

  /** Decimal digits of a natural number, most significant first. */
  function Digits(n: nat): (r: string)
    ensures |r| > 0
    ensures forall j :: 0 <= j < |r| ==> '0' <= r[j] <= '9'
    ensures |r| > 1 ==> r[0] != '0'
    decreases n
  {
    var d := "0123456789"[n % 10];
    if n < 10 then [d] else Digits(n / 10) + [d]
  }

  /** The number a string of decimal digits denotes (0 for a non-digit). */
  function DecimalValue(s: string): nat {
    if |s| == 0 then 0
    else
      var c := s[|s| - 1];
      var d := if '0' <= c <= '9' then (c as int - '0' as int) else 0;
      DecimalValue(s[..|s| - 1]) * 10 + d
  }

  /** Reading back the digits of a number gives the number. */
  lemma {:induction false} DigitsRoundTrip(n: nat)
    ensures DecimalValue(Digits(n)) == n
  {
    var d := "0123456789"[n % 10];
    assert d as int - '0' as int == n % 10;
    if n >= 10 {
      DigitsRoundTrip(n / 10);
      var s := Digits(n / 10) + [d];
      assert s[..|s| - 1] == Digits(n / 10);
    }
  }

  /** PHP's decimal rendering of an integer. */
  function IntToString(n: int): (r: string)
    ensures n >= 0 ==>
      && |r| > 0 && (forall j :: 0 <= j < |r| ==> '0' <= r[j] <= '9')
      && (|r| > 1 ==> r[0] != '0')
      && DecimalValue(r) == n
    ensures n < 0 ==>
      && |r| > 1 && r[0] == '-' && (forall j :: 1 <= j < |r| ==> '0' <= r[j] <= '9')
      && (|r| > 2 ==> r[1] != '0')
      && DecimalValue(r[1..]) == -n
  {
    if n < 0 then
      var digits := Digits(-n);
      DigitsRoundTrip(-n);
      assert ("-" + digits)[1..] == digits;
      "-" + digits
    else
      DigitsRoundTrip(n);
      Digits(n)
  }

  /**
   * PHP's conversion of a value to string, as done by the `.` operator:
   * NULL and FALSE give "", TRUE gives "1", an integer its decimal digits
   * (with a leading '-' when negative), an array "Array".
   */
  function ToPhpString(v: Value): (r: string)
    ensures v == Null || v == Bool(false) ==> r == ""
    ensures v == Bool(true) ==> r == "1"
    ensures v.Str? ==> r == v.s
    ensures v.Arr? ==> r == "Array"
    ensures v.Int? ==> r == IntToString(v.i)
  {
    match v
    case Null => ""
    case Bool(b) => if b then "1" else ""
    case Int(n) => IntToString(n)
    case Str(s) => s
    case Arr(_) => "Array"
  }
}
