/** The few pieces of PHP semantics that build.php leans on: truthiness of
    strings (`empty`), `trim` with its default character set, `explode` on a
    one-character separator, and PHP's ordered arrays. */
module Php {

  datatype Option<+T> = None | Some(value: T)

  datatype Result<+R, +E> = Success(value: R) | Failure(error: E)

  /** `empty($s)` for a string: true exactly for "" and "0". */
  predicate Falsy(s: string) {
    s == "" || s == "0"
  }

  /** The characters `trim` removes when no list is given:
      space, tab, line feed, carriage return, NUL and vertical tab. */
  predicate IsTrimChar(c: char) {
    c == ' ' || c == '\t' || c == '\n' || c == '\r' || c == '\0' || c == '\U{0B}'
  }

  /** `ltrim($s)`: drops the leading run of trim characters. */
  function TrimStart(s: string): (r: string)
    ensures |r| <= |s| && r == s[|s| - |r|..]
    ensures forall i :: 0 <= i < |s| - |r| ==> IsTrimChar(s[i])
    ensures r != [] ==> !IsTrimChar(r[0])
    decreases |s|
  {
    if s != [] && IsTrimChar(s[0]) then TrimStart(s[1..]) else s
  }

  /** `rtrim($s)`: drops the trailing run of trim characters. */
  function TrimEnd(s: string): (r: string)
    ensures |r| <= |s| && r == s[..|r|]
    ensures forall i :: |r| <= i < |s| ==> IsTrimChar(s[i])
    ensures r != [] ==> !IsTrimChar(r[|r| - 1])
    decreases |s|
  {
    if s != [] && IsTrimChar(s[|s| - 1]) then TrimEnd(s[..|s| - 1]) else s
  }

  /** `trim($s)`: both runs of trim characters gone; what is left neither
      starts nor ends with one. */
  function Trim(s: string): (r: string)
    ensures |r| <= |s|
    ensures r != [] ==> !IsTrimChar(r[0]) && !IsTrimChar(r[|r| - 1])
  {
    var t := TrimStart(s);
    var r := TrimEnd(t);
    assert r != [] ==> r[0] == t[0];
    r
  }

  /** `trim` only removes: its result is the slice of `s` that follows the
      leading run of trim characters, and only trim characters follow it. */
  lemma TrimSlice(s: string)
    ensures |s| - |TrimStart(s)| + |Trim(s)| <= |s|
    ensures Trim(s) == s[|s| - |TrimStart(s)|..][..|Trim(s)|]
    ensures forall i :: |s| - |TrimStart(s)| + |Trim(s)| <= i < |s| ==> IsTrimChar(s[i])
  {
    var t := TrimStart(s);
    var r := TrimEnd(t);
    var start := |s| - |t|;
    assert Trim(s) == r;
    assert t == s[start..];
    forall i | start + |r| <= i < |s|
      ensures IsTrimChar(s[i])
    {
      assert s[i] == t[i - start];
    }
  }

  /** A string that neither starts nor ends with a trim character is left as it is. */
  lemma TrimKeeps(s: string)
    requires s != [] && !IsTrimChar(s[0]) && !IsTrimChar(s[|s| - 1])
    ensures Trim(s) == s
  {
  }

  /** `trim` gives "" exactly for strings made of trim characters only. */
  lemma TrimEmpty(s: string)
    ensures Trim(s) == [] <==> forall i :: 0 <= i < |s| ==> IsTrimChar(s[i])
  {
    if exists i :: 0 <= i < |s| && !IsTrimChar(s[i]) {
      TrimSlice(s);
    }
  }

  /** `explode($sep, $s)` for a one-character separator: the pieces between
      separators, never fewer than one. */
  function Explode(sep: char, s: string): (r: seq<string>)
    ensures |r| >= 1
    ensures forall i :: 0 <= i < |r| ==> sep !in r[i]
    ensures |r| == 1 <==> sep !in s
    decreases |s|
  {
    if s == [] then [""]
    else
      var rest := Explode(sep, s[1..]);
      if s[0] == sep then [""] + rest
      else [[s[0]] + rest[0]] + rest[1..]
  }

  /** `implode($sep, $parts)`. */
  function Implode(sep: char, parts: seq<string>): string
    decreases |parts|
  {
    if parts == [] then ""
    else if |parts| == 1 then parts[0]
    else parts[0] + [sep] + Implode(sep, parts[1..])
  }

  /** Exploding loses nothing: joining the pieces again gives back the input. */
  lemma {:induction false} ImplodeExplode(sep: char, s: string)
    ensures Implode(sep, Explode(sep, s)) == s
    decreases |s|
  {
    if s != [] {
      ImplodeExplode(sep, s[1..]);
      var rest := Explode(sep, s[1..]);
      if s[0] == sep {
        assert Explode(sep, s) == [""] + rest;
        assert s == [sep] + s[1..];
      } else {
        var r := Explode(sep, s);
        assert r == [[s[0]] + rest[0]] + rest[1..];
        if |rest| == 1 {
          assert s == [s[0]] + rest[0];
        } else {
          assert r[1..] == rest[1..];
          assert Implode(sep, rest) == rest[0] + [sep] + Implode(sep, rest[1..]);
          assert s == [s[0]] + Implode(sep, rest);
        }
      }
    }
  }

  /** `explode` cuts at the first separator. */
  lemma {:induction false} ExplodeFirst(sep: char, a: string, rest: string)
    requires sep !in a
    ensures Explode(sep, a + [sep] + rest) == [a] + Explode(sep, rest)
    decreases |a|
  {
    var s := a + [sep] + rest;
    if a == [] {
      assert s == [sep] + rest && s[1..] == rest;
    } else {
      assert s[0] == a[0] && s[1..] == a[1..] + [sep] + rest;
      ExplodeFirst(sep, a[1..], rest);
      var tail := Explode(sep, s[1..]);
      assert tail == [a[1..]] + Explode(sep, rest);
      assert Explode(sep, s) == [[s[0]] + tail[0]] + tail[1..];
      assert tail[1..] == Explode(sep, rest);
      assert [s[0]] + tail[0] == a;
    }
  }

  /** A piece without separators explodes to itself. */
  lemma ExplodeWhole(sep: char, a: string)
    requires sep !in a
    ensures Explode(sep, a) == [a]
  {
    ImplodeExplode(sep, a);
  }

  /** No element occurs twice. */
  ghost predicate Distinct(s: seq<string>) {
    forall i, j :: 0 <= i < j < |s| ==> s[i] != s[j]
  }

  /** `s` with every occurrence of `x` removed, order kept. */
  function Without(s: seq<string>, x: string): (r: seq<string>)
    ensures x !in r
    ensures forall y :: y in r <==> y in s && y != x
    ensures Distinct(s) ==> Distinct(r)
    decreases |s|
  {
    if s == [] then []
    else if s[0] == x then Without(s[1..], x)
    else
      var rest := Without(s[1..], x);
      assert Distinct(s) ==> s[0] !in s[1..];
      [s[0]] + rest
  }

  /** Removing an element that does not occur changes nothing. */
  lemma {:induction false} WithoutAbsent(s: seq<string>, x: string)
    requires x !in s
    ensures Without(s, x) == s
    decreases |s|
  {
    if s != [] {
      WithoutAbsent(s[1..], x);
    }
  }

  /** Removing an element that occurs once leaves the elements before it
      followed by those after it, in their order. */
  lemma {:induction false} WithoutSplit(a: seq<string>, x: string, b: seq<string>)
    requires x !in a && x !in b
    ensures Without(a + [x] + b, x) == a + b
    decreases |a|
  {
    var s := a + [x] + b;
    if a == [] {
      assert s[0] == x && s[1..] == b;
      WithoutAbsent(b, x);
    } else {
      assert s[0] == a[0] && s[1..] == a[1..] + [x] + b;
      WithoutSplit(a[1..], x, b);
      assert a + b == [a[0]] + (a[1..] + b);
    }
  }

  /** A PHP array with string keys: `keys` is the insertion order, `entries`
      the key/value association. */
  datatype OrderedMap<V> = OrderedMap(keys: seq<string>, entries: map<string, V>) {

    /** Each key is listed once, and exactly the keys of `entries` are listed. */
    ghost predicate Valid() {
      && Distinct(keys)
      && (forall k :: k in entries <==> k in keys)
    }

    /** `$a[$k] = $v`: a new key goes to the end, an existing one keeps its place. */
    function Put(k: string, v: V): (r: OrderedMap<V>)
      ensures Valid() ==> r.Valid()
      ensures r.entries == entries[k := v]
      ensures k in entries ==> r.keys == keys
      ensures k !in entries ==> r.keys == keys + [k]
    {
      if k in entries then OrderedMap(keys, entries[k := v])
      else OrderedMap(keys + [k], entries[k := v])
    }

    /** `unset($a[$k])`: the other keys keep their values and their order. */
    function Unset(k: string): (r: OrderedMap<V>)
      ensures Valid() ==> r.Valid()
      ensures r.entries == entries - {k}
      ensures k !in r.keys && forall j :: j in r.keys <==> j in keys && j != k
    {
      OrderedMap(Without(keys, k), entries - {k})
    }

    /** `array_values($a)`: the values in key order, as `foreach` visits them. */
    function Values(): (r: seq<V>)
      requires Valid()
      ensures |r| == |keys|
      ensures forall i :: 0 <= i < |keys| ==> r[i] == entries[keys[i]]
    {
      seq(|keys|, i requires 0 <= i < |keys| => entries[keys[i]])
    }

    /** `unset` of the key at position `i` takes out that key and its value
        and keeps the others, keys and values, in their order. */
    lemma UnsetAt(i: nat)
      requires Valid() && i < |keys|
      ensures Unset(keys[i]).keys == keys[..i] + keys[i + 1..]
      ensures Unset(keys[i]).Values() == Values()[..i] + Values()[i + 1..]
    {
      DistinctAt(keys, i);
      WithoutSplit(keys[..i], keys[i], keys[i + 1..]);
      ValuesDropped(this, Unset(keys[i]), i);
    }

    /** `unset` of a key that is not there changes nothing. */
    lemma UnsetAbsent(k: string)
      requires Valid() && k !in keys
      ensures Unset(k) == this
    {
      WithoutAbsent(keys, k);
      assert entries - {k} == entries;
    }

    /** Assigning a new key adds its value after all others; assigning an
        existing key replaces its value where it stands. */
    lemma PutValues(k: string, v: V)
      requires Valid()
      ensures k !in entries ==> Put(k, v).Values() == Values() + [v]
      ensures forall i :: 0 <= i < |keys| && keys[i] == k ==> Put(k, v).Values() == Values()[i := v]
    {
    }
  }

  /** The element at position `i` of a list without repetitions occurs
      neither before nor after it. */
  lemma DistinctAt(s: seq<string>, i: nat)
    requires Distinct(s) && i < |s|
    ensures s == s[..i] + [s[i]] + s[i + 1..]
    ensures s[i] !in s[..i] && s[i] !in s[i + 1..]
  {
    forall j | 0 <= j < |s| && j != i
      ensures s[j] != s[i]
    {
    }
  }

  /** The values of an array whose keys are those of `m` without position
      `i`, with the same values, are those of `m` without position `i`. */
  lemma ValuesDropped<V>(m: OrderedMap<V>, r: OrderedMap<V>, i: nat)
    requires m.Valid() && r.Valid() && i < |m.keys|
    requires r.keys == m.keys[..i] + m.keys[i + 1..] && r.entries == m.entries - {m.keys[i]}
    ensures r.Values() == m.Values()[..i] + m.Values()[i + 1..]
  {
    var a := m.Values();
    var b := r.Values();
    forall j | 0 <= j < |b|
      ensures b[j] == (a[..i] + a[i + 1..])[j]
    {
      if j < i {
        assert r.keys[j] == m.keys[j];
      } else {
        assert r.keys[j] == m.keys[j + 1];
      }
    }
  }

  function EmptyMap<V>(): (r: OrderedMap<V>)
    ensures r.Valid() && r.keys == [] && r.entries == map[]
  {
    OrderedMap([], map[])
  }
}
