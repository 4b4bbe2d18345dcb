/**
 * The few PHP value semantics the handlers rely on: `empty()`, `is_numeric()`
 * on integer-like values, and PHP's ordered arrays (insertion-ordered maps
 * whose assignment to an existing key keeps that key's position).
 */
module PhpValues {

  datatype Option<+T> = None | Some(value: T)

  /** A PHP value as it appears in handler options and definitions. */
  datatype Value = Null | Bool(b: bool) | Int(i: int) | Str(s: string) | List(items: seq<Value>)

  /** PHP `empty()`: NULL, FALSE, 0, "", "0" and the empty array. */
  predicate Empty(v: Value)
  {
    match v
    case Null => true
    case Bool(b) => !b
    case Int(i) => i == 0
    case Str(s) => EmptyText(s)
    case List(items) => items == []
  }

  /** `empty()` of a string. */
  predicate EmptyText(s: string)
  {
    s == "" || s == "0"
  }

  predicate IsDigit(c: char)
  {
    '0' <= c <= '9'
  }

  predicate AllDigits(s: string)
  {
    forall i :: 0 <= i < |s| ==> IsDigit(s[i])
  }

  /** A decimal integer literal with an optional sign, such as "7", "-2" or "+15". */
  predicate IsIntegerText(s: string)
  {
    if |s| > 0 && (s[0] == '-' || s[0] == '+') then |s| > 1 && AllDigits(s[1..])
    else |s| > 0 && AllDigits(s)
  }

  /** The value of a string of decimal digits. */
  function DigitsValue(s: string): (n: nat)
    requires AllDigits(s)
    ensures s == "" ==> n == 0
  {
    if s == [] then 0
    else DigitsValue(s[..|s| - 1]) * 10 + (s[|s| - 1] as int - '0' as int)
  }

  /** `is_numeric()` restricted to integers and integer literals. */
  predicate IsNumeric(v: Value)
  {
    v.Int? || (v.Str? && IsIntegerText(v.s))
  }

  /** The number PHP's arithmetic reads from a numeric value. */
  function NumericValue(v: Value): int
    requires IsNumeric(v)
  {
    if v.Int? then v.i
    else if v.s[0] == '-' then -(DigitsValue(v.s[1..]) as int)
    else if v.s[0] == '+' then DigitsValue(v.s[1..])
    else DigitsValue(v.s)
  }

  lemma IntegerTextValues()
    ensures IsNumeric(Str("1")) && NumericValue(Str("1")) == 1
    ensures IsNumeric(Str("-2")) && NumericValue(Str("-2")) == -2
    ensures !IsNumeric(Str("")) && !IsNumeric(Str("-")) && !IsNumeric(Bool(true))
  {
    assert DigitsValue("1") == DigitsValue("") * 10 + 1;
    assert "-2"[1..] == "2";
    assert DigitsValue("2") == DigitsValue("") * 10 + 2;
  }

  // ---------------------------------------------------------------------
  // Ordered arrays

  /** One key => value pair of a PHP array; a PHP array is a sequence of them with distinct keys. */
  datatype Entry<V> = Entry(key: string, val: V)

  predicate HasKey<V>(a: seq<Entry<V>>, k: string)
  {
    exists i :: 0 <= i < |a| && a[i].key == k
  }

  predicate DistinctKeys<V>(a: seq<Entry<V>>)
  {
    forall i, j :: 0 <= i < j < |a| ==> a[i].key != a[j].key
  }

  /** `$a[$k]`, when the key is present. */
  function Lookup<V>(a: seq<Entry<V>>, k: string): (r: Option<V>)
    ensures r.Some? <==> HasKey(a, k)
    ensures r.Some? ==> Entry(k, r.value) in a
  {
    if a == [] then None
    else if a[0].key == k then Some(a[0].val)
    else
      var r := Lookup(a[1..], k);
      assert forall i :: 1 <= i < |a| ==> a[i] == a[1..][i - 1];
      r
  }

  /** `$a[$k] = $v`: overwrite in place when `$k` is present, append otherwise. */
  function Put<V>(a: seq<Entry<V>>, k: string, v: V): (r: seq<Entry<V>>)
    ensures forall e :: e in r ==> e in a || e == Entry(k, v)
  {
    if a == [] then [Entry(k, v)]
    else if a[0].key == k then [Entry(k, v)] + a[1..]
    else [a[0]] + Put(a[1..], k, v)
  }

  /** `unset($a[$k])`. */
  function Unset<V>(a: seq<Entry<V>>, k: string): (r: seq<Entry<V>>)
    ensures forall e :: e in r ==> e in a && e.key != k
  {
    if a == [] then []
    else if a[0].key == k then Unset(a[1..], k)
    else [a[0]] + Unset(a[1..], k)
  }

  /** `$a + $b`: the entries of `$b` whose keys `$a` lacks, appended to `$a`. */
  function Union<V>(a: seq<Entry<V>>, b: seq<Entry<V>>): (r: seq<Entry<V>>)
    ensures |r| <= |a| + |b|
    decreases |b|
  {
    if b == [] then a
    else if HasKey(a, b[0].key) then Union(a, b[1..])
    else Union(a + [b[0]], b[1..])
  }

  /** After `$a[$k] = $v`, reading `$k` gives `$v` and every other key reads as before. */
  lemma {:induction false} LookupPut<V>(a: seq<Entry<V>>, k: string, v: V, k': string)
    ensures Lookup(Put(a, k, v), k') == if k' == k then Some(v) else Lookup(a, k')
  {
    if a != [] {
      if a[0].key == k {
        assert ([Entry(k, v)] + a[1..])[1..] == a[1..];
      } else {
        LookupPut(a[1..], k, v, k');
        assert ([a[0]] + Put(a[1..], k, v))[1..] == Put(a[1..], k, v);
      }
    }
  }

  lemma {:induction false} PutAbsent<V>(a: seq<Entry<V>>, k: string, v: V)
    requires !HasKey(a, k)
    ensures Put(a, k, v) == a + [Entry(k, v)]
  {
    if a != [] {
      assert a[0].key != k;
      assert !HasKey(a[1..], k) by {
        forall i | 0 <= i < |a[1..]| ensures a[1..][i].key != k {
          assert a[1..][i] == a[i + 1];
        }
      }
      PutAbsent(a[1..], k, v);
      assert a == [a[0]] + a[1..];
    }
  }

  lemma {:induction false} UnsetAbsent<V>(a: seq<Entry<V>>, k: string)
    requires !HasKey(a, k)
    ensures Unset(a, k) == a
  {
    if a != [] {
      assert a[0].key != k;
      assert !HasKey(a[1..], k) by {
        forall i | 0 <= i < |a[1..]| ensures a[1..][i].key != k {
          assert a[1..][i] == a[i + 1];
        }
      }
      UnsetAbsent(a[1..], k);
    }
  }

  lemma {:induction false} UnsetAppend<V>(a: seq<Entry<V>>, b: seq<Entry<V>>, k: string)
    ensures Unset(a + b, k) == Unset(a, k) + Unset(b, k)
  {
    if a == [] {
      assert a + b == b;
    } else {
      assert (a + b)[1..] == a[1..] + b;
      UnsetAppend(a[1..], b, k);
    }
  }

  lemma UnionBaseKept<V>(a: seq<Entry<V>>, b: seq<Entry<V>>)
    ensures |Union(a, b)| >= |a|
    ensures Union(a, b)[..|a|] == a
    decreases |b|
  {
    if b != [] {
      if HasKey(a, b[0].key) {
        UnionBaseKept(a, b[1..]);
      } else {
        UnionBaseKept(a + [b[0]], b[1..]);
        assert (a + [b[0]])[..|a|] == a;
        assert Union(a, b)[..|a|] == Union(a + [b[0]], b[1..])[..|a + [b[0]]|][..|a|];
      }
    }
  }

  /** PHP's `+` never overwrites a key of its left operand and adds every key of its right one. */
  lemma {:induction false} UnionKeys<V>(a: seq<Entry<V>>, b: seq<Entry<V>>, k: string)
    ensures HasKey(Union(a, b), k) <==> HasKey(a, k) || HasKey(b, k)
    ensures HasKey(a, k) ==> Lookup(Union(a, b), k) == Lookup(a, k)
    ensures !HasKey(a, k) && DistinctKeys(b) ==> Lookup(Union(a, b), k) == Lookup(b, k)
    decreases |b|
  {
    if b != [] {
      var b' := b[1..];
      assert forall i :: 1 <= i < |b| ==> b[i] == b'[i - 1];
      assert HasKey(b, k) <==> b[0].key == k || HasKey(b', k);
      assert DistinctKeys(b) ==> DistinctKeys(b');
      if HasKey(a, b[0].key) {
        UnionKeys(a, b', k);
        if !HasKey(a, k) {
          assert b[0].key != k;
        }
      } else {
        var a' := a + [b[0]];
        UnionKeys(a', b', k);
        assert HasKey(a', k) <==> HasKey(a, k) || b[0].key == k by {
          if HasKey(a, k) {
            var i :| 0 <= i < |a| && a[i].key == k;
            assert a'[i] == a[i];
          }
          if b[0].key == k {
            assert a'[|a|] == b[0];
          }
          if HasKey(a', k) {
            var i :| 0 <= i < |a'| && a'[i].key == k;
            if i < |a| { assert a[i] == a'[i]; }
          }
        }
        LookupAppend(a, b[0], k);
        if !HasKey(a, k) && DistinctKeys(b) {
          if b[0].key == k {
            assert !HasKey(b', k) by {
              forall i | 0 <= i < |b'| ensures b'[i].key != k {
                assert b'[i] == b[i + 1];
              }
            }
          }
        }
      }
    }
  }

  lemma {:induction false} LookupAppend<V>(a: seq<Entry<V>>, e: Entry<V>, k: string)
    ensures Lookup(a + [e], k) == if HasKey(a, k) then Lookup(a, k) else if e.key == k then Some(e.val) else None
  {
    if a == [] {
      assert [e][1..] == [];
    } else {
      assert (a + [e])[1..] == a[1..] + [e];
      LookupAppend(a[1..], e, k);
      assert HasKey(a, k) <==> a[0].key == k || HasKey(a[1..], k) by {
        assert forall i :: 1 <= i < |a| ==> a[i] == a[1..][i - 1];
      }
    }
  }
}
