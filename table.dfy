/** The canonical table (one observation per row) and pandas'
    `sort_values(["city", "date"])`, which every stage of the pipeline applies. */
module Table {
  import opened Wrappers
  import opened Strings

  /** A calendar date, as a number of days since 1970-01-01. */
  type Date = int

  /** One canonical observation: a city, a date and the measured values; a
      missing measurement is `None` (pandas' NaN). */
  datatype Record = Record(
    city: string,
    date: Date,
    aqi: Option<real>,
    pm25: Option<real>,
    pm10: Option<real>,
    no2: Option<real>,
    so2: Option<real>,
    co: Option<real>,
    o3: Option<real>)

  /** The sort key `(city, date)`. */
  datatype Key = Key(city: string, date: Date)

  function RecordKey(r: Record): Key
  {
    Key(r.city, r.date)
  }

  /** Lexicographic order on `(city, date)`, cities by Python's string order. */
  predicate KeyLe(a: Key, b: Key)
  {
    StrLt(a.city, b.city) || (a.city == b.city && a.date <= b.date)
  }

  lemma KeyLeTrans(a: Key, b: Key, c: Key)
    requires KeyLe(a, b) && KeyLe(b, c)
    ensures KeyLe(a, c)
  {
    if StrLt(a.city, b.city) {
      if b.city == c.city { StrLeRefl(c.city); }
      StrLtTrans(a.city, b.city, c.city);
    }
  }

  lemma KeyLeTotal(a: Key, b: Key)
    ensures KeyLe(a, b) || KeyLe(b, a)
  {
    StrLeTotal(a.city, b.city);
  }

  /** A key that precedes another has a city that is not greater. */
  lemma KeyLeCity(a: Key, b: Key)
    requires KeyLe(a, b)
    ensures StrLe(a.city, b.city)
  {
    if a.city == b.city { StrLeRefl(a.city); }
  }

  /** Rows in non-decreasing `(city, date)` order. */
  ghost predicate SortedBy<T>(s: seq<T>, key: T -> Key)
  {
    forall i, j :: 0 <= i < j < |s| ==> KeyLe(key(s[i]), key(s[j]))
  }

  /** The rows of `s` whose key is `k`, in order. */
  function WithKey<T>(s: seq<T>, key: T -> Key, k: Key): (r: seq<T>)
    ensures |r| <= |s|
  {
    if |s| == 0 then []
    else if key(s[0]) == k then [s[0]] + WithKey(s[1..], key, k)
    else WithKey(s[1..], key, k)
  }

  /** Inserts `x` before the first row whose key is not smaller. */
  function Insert<T>(x: T, s: seq<T>, key: T -> Key): (r: seq<T>)
    ensures |r| == |s| + 1
    ensures multiset(r) == multiset(s) + multiset{x}
  {
    if |s| == 0 then [x]
    else if KeyLe(key(x), key(s[0])) then [x] + s
    else
      assert s == [s[0]] + s[1..];
      [s[0]] + Insert(x, s[1..], key)
  }

  /** `sort_values(["city", "date"])`: a stable sort by `(city, date)`
      (for several sort columns pandas uses a stable lexicographic sort). */
  function SortBy<T>(s: seq<T>, key: T -> Key): (r: seq<T>)
    ensures |r| == |s|
    ensures multiset(r) == multiset(s)
  {
    if |s| == 0 then []
    else
      assert s == [s[0]] + s[1..];
      Insert(s[0], SortBy(s[1..], key), key)
  }

  lemma {:induction false} InsertSorted<T>(x: T, s: seq<T>, key: T -> Key)
    requires SortedBy(s, key)
    ensures SortedBy(Insert(x, s, key), key)
    decreases |s|
  {
    if |s| > 0 {
      if KeyLe(key(x), key(s[0])) {
        var r := [x] + s;
        forall i, j | 0 <= i < j < |r| ensures KeyLe(key(r[i]), key(r[j])) {
          if i == 0 && j > 1 { KeyLeTrans(key(x), key(s[0]), key(s[j - 1])); }
        }
      } else {
        KeyLeTotal(key(x), key(s[0]));
        InsertSorted(x, s[1..], key);
        var t := Insert(x, s[1..], key);
        var r := [s[0]] + t;
        forall j | 0 <= j < |t| ensures KeyLe(key(s[0]), key(t[j])) {
          assert t[j] in multiset(t);
          assert t[j] in multiset(s[1..]) || t[j] == x;
          if t[j] != x {
            var m :| 0 <= m < |s[1..]| && s[1..][m] == t[j];
            assert s[m + 1] == t[j];
          }
        }
        forall i, j | 0 <= i < j < |r| ensures KeyLe(key(r[i]), key(r[j])) {
          if i > 0 { assert r[i] == t[i - 1] && r[j] == t[j - 1]; }
          else { assert r[j] == t[j - 1]; }
        }
      }
    }
  }

  lemma {:induction false} SortSorted<T>(s: seq<T>, key: T -> Key)
    ensures SortedBy(SortBy(s, key), key)
    decreases |s|
  {
    if |s| > 0 {
      SortSorted(s[1..], key);
      InsertSorted(s[0], SortBy(s[1..], key), key);
    }
  }

  lemma {:induction false} InsertWithKey<T>(x: T, s: seq<T>, key: T -> Key, k: Key)
    ensures WithKey(Insert(x, s, key), key, k)
         == if key(x) == k then [x] + WithKey(s, key, k) else WithKey(s, key, k)
    decreases |s|
  {
    if |s| > 0 && !KeyLe(key(x), key(s[0])) {
      InsertWithKey(x, s[1..], key, k);
      if key(x) == k {
        assert key(s[0]) != k by { StrLeRefl(k.city); }
      }
    }
  }

  /** The sort is stable: rows with equal keys keep their input order. */
  lemma {:induction false} SortStable<T>(s: seq<T>, key: T -> Key, k: Key)
    ensures WithKey(SortBy(s, key), key, k) == WithKey(s, key, k)
    decreases |s|
  {
    if |s| > 0 {
      SortStable(s[1..], key, k);
      InsertWithKey(s[0], SortBy(s[1..], key), key, k);
    }
  }

  /** Sorting a table that is already sorted changes nothing. */
  lemma {:induction false} SortOfSorted<T>(s: seq<T>, key: T -> Key)
    requires SortedBy(s, key)
    ensures SortBy(s, key) == s
    decreases |s|
  {
    if |s| > 0 {
      assert SortedBy(s[1..], key) by {
        forall i, j | 0 <= i < j < |s[1..]| ensures KeyLe(key(s[1..][i]), key(s[1..][j])) {
          assert s[1..][i] == s[i + 1] && s[1..][j] == s[j + 1];
        }
      }
      SortOfSorted(s[1..], key);
      if |s| > 1 { assert KeyLe(key(s[0]), key(s[1])); }
      assert s == [s[0]] + s[1..];
    }
  }

  /** Cities of a sorted table are in non-decreasing string order. */
  lemma SortedCities<T>(s: seq<T>, key: T -> Key, i: int, j: int)
    requires SortedBy(s, key)
    requires 0 <= i <= j < |s|
    ensures StrLe(key(s[i]).city, key(s[j]).city)
  {
    if i == j { StrLeRefl(key(s[i]).city); } else { KeyLeCity(key(s[i]), key(s[j])); }
  }

  /** In a sorted table the rows of one city are contiguous: a row lying between
      two rows of city `c` is itself of city `c`. */
  lemma Contiguous<T>(s: seq<T>, key: T -> Key, i: int, m: int, j: int)
    requires SortedBy(s, key)
    requires 0 <= i <= m <= j < |s|
    requires key(s[i]).city == key(s[j]).city
    ensures key(s[m]).city == key(s[i]).city
  {
    SortedCities(s, key, i, m);
    SortedCities(s, key, m, j);
    StrLeAntisym(key(s[i]).city, key(s[m]).city);
  }

  /** `a` is `b` with some elements left out (order kept). */
  predicate Subseq<T(==)>(a: seq<T>, b: seq<T>)
    decreases |b|
  {
    if |a| == 0 then true
    else if |b| == 0 then false
    else if a[0] == b[0] then Subseq(a[1..], b[1..])
    else Subseq(a, b[1..])
  }

  lemma {:induction false} SubseqLength<T>(a: seq<T>, b: seq<T>)
    requires Subseq(a, b)
    ensures |a| <= |b|
    decreases |b|
  {
    if |a| > 0 {
      if a[0] == b[0] { SubseqLength(a[1..], b[1..]); } else { SubseqLength(a, b[1..]); }
    }
  }

  lemma {:induction false} SubseqMembers<T>(a: seq<T>, b: seq<T>)
    requires Subseq(a, b)
    ensures forall x :: x in a ==> x in b
    decreases |b|
  {
    if |a| > 0 {
      assert a == [a[0]] + a[1..];
      assert b == [b[0]] + b[1..];
      if a[0] == b[0] { SubseqMembers(a[1..], b[1..]); } else { SubseqMembers(a, b[1..]); }
    }
  }

  /** A subsequence of the tail is a subsequence of the whole. */
  lemma {:induction false} SubseqDrop<T>(a: seq<T>, b: seq<T>)
    requires |b| > 0 && Subseq(a, b[1..])
    ensures Subseq(a, b)
    decreases |b|, 0
  {
    if |a| > 0 && a[0] == b[0] {
      SubseqTail(a, b[1..]);
    }
  }

  /** A subsequence stays one when its first element is removed. */
  lemma {:induction false} SubseqTail<T>(a: seq<T>, b: seq<T>)
    requires |a| > 0 && Subseq(a, b)
    ensures Subseq(a[1..], b)
    decreases |b|, 1
  {
    if a[0] == b[0] {
      if |a| > 1 {
        SubseqTail(a[1..], b[1..]);
        assert a[1..][1..] == a[2..];
        SubseqDrop(a[1..], b);
      }
    } else {
      SubseqTail(a, b[1..]);
      if |a| > 1 { SubseqDrop(a[1..], b); }
    }
  }

  /** A subsequence stays one when both sides are extended, or only the
      longer one. */
  lemma {:induction false} SubseqExtend<T>(a: seq<T>, b: seq<T>, x: T)
    requires Subseq(a, b)
    ensures Subseq(a, b + [x]) && Subseq(a + [x], b + [x])
    decreases |b|
  {
    if |b| == 0 {
      assert a == [];
      assert ([x])[1..] == [];
    } else {
      assert (b + [x])[0] == b[0] && (b + [x])[1..] == b[1..] + [x];
      if |a| == 0 {
        SubseqExtend(a, b[1..], x);
        assert a + [x] == [x];
      } else if a[0] == b[0] {
        SubseqExtend(a[1..], b[1..], x);
        assert (a + [x])[0] == a[0] && (a + [x])[1..] == a[1..] + [x];
      } else {
        SubseqExtend(a, b[1..], x);
        assert (a + [x])[0] == a[0];
      }
    }
  }

  /** A subsequence of a sorted table is sorted. */
  lemma {:induction false} SubseqSorted<T>(a: seq<T>, b: seq<T>, key: T -> Key)
    requires Subseq(a, b) && SortedBy(b, key)
    ensures SortedBy(a, key)
    decreases |b|
  {
    if |a| > 0 {
      assert SortedBy(b[1..], key) by {
        forall i, j | 0 <= i < j < |b[1..]| ensures KeyLe(key(b[1..][i]), key(b[1..][j])) {
          assert b[1..][i] == b[i + 1] && b[1..][j] == b[j + 1];
        }
      }
      if a[0] == b[0] {
        SubseqSorted(a[1..], b[1..], key);
        SubseqMembers(a[1..], b[1..]);
        forall j | 1 <= j < |a| ensures KeyLe(key(a[0]), key(a[j])) {
          assert a[j] in a[1..];
          var m :| 0 <= m < |b[1..]| && b[1..][m] == a[j];
          assert b[m + 1] == a[j];
        }
        forall i, j | 0 <= i < j < |a| ensures KeyLe(key(a[i]), key(a[j])) {
          if i > 0 { assert a[i] == a[1..][i - 1] && a[j] == a[1..][j - 1]; }
        }
      } else {
        SubseqSorted(a, b[1..], key);
      }
    }
  }
}
