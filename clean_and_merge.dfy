/** The normaliser: the raw files' column names are cleaned, rows whose date
    does not parse are dropped, duplicates on `(city, date)` are removed
    keeping the first, the rows are sorted and those without `aqi` dropped;
    the cleaned files are then concatenated and sorted again. */
module CleanAndMerge {
  import opened Wrappers
  import opened Strings
  import opened Table

  // ---------------------------------------------------------------------
  // Column names

  /** Python's `str.isspace`, the characters `str.strip()` removes. */
  predicate IsSpace(ch: char)
  {
    || ch == ' '
    || ('\t' <= ch <= '\r')
    || ('\U{1C}' <= ch <= '\U{1F}')
    || ch == '\U{85}' || ch == '\U{A0}' || ch == '\U{1680}'
    || ('\U{2000}' <= ch <= '\U{200A}')
    || ch == '\U{2028}' || ch == '\U{2029}' || ch == '\U{202F}' || ch == '\U{205F}' || ch == '\U{3000}'
  }

  /** `lstrip()`: the longest whitespace prefix removed. */
  function StripStart(s: string): (r: string)
    ensures |r| <= |s| && r == s[|s| - |r|..]
    ensures forall k :: 0 <= k < |s| - |r| ==> IsSpace(s[k])
    ensures |r| > 0 ==> !IsSpace(r[0])
  {
    if |s| > 0 && IsSpace(s[0]) then StripStart(s[1..]) else s
  }

  /** `rstrip()`: the longest whitespace suffix removed. */
  function StripEnd(s: string): (r: string)
    ensures |r| <= |s| && r == s[..|r|]
    ensures forall k :: |r| <= k < |s| ==> IsSpace(s[k])
    ensures |r| > 0 ==> !IsSpace(r[|r| - 1])
  {
    if |s| > 0 && IsSpace(s[|s| - 1]) then StripEnd(s[..|s| - 1]) else s
  }

  /** `str.strip()`. */
  function Strip(s: string): string
  {
    StripStart(StripEnd(s))
  }

  /** `str.lower()` on the ASCII letters. */
  function LowerChar(ch: char): char
  {
    if 'A' <= ch <= 'Z' then (ch as int + 32) as char else ch
  }

  function Lower(s: string): (r: string)
    ensures |r| == |s| && forall i :: 0 <= i < |s| ==> r[i] == LowerChar(s[i])
  {
    seq(|s|, i requires 0 <= i < |s| => LowerChar(s[i]))
  }

  /** `str.replace(c, "")`. */
  function RemoveChar(s: string, c: char): string
  {
    if |s| == 0 then []
    else (if s[0] == c then [] else [s[0]]) + RemoveChar(s[1..], c)
  }

  /** `str.replace(a, b)` for single characters. */
  function ReplaceChar(s: string, a: char, b: char): (r: string)
    ensures |r| == |s| && forall i :: 0 <= i < |s| ==> r[i] == if s[i] == a then b else s[i]
  {
    seq(|s|, i requires 0 <= i < |s| => if s[i] == a then b else s[i])
  }

  /** One column name through `strip`, `lower`, the removal of `.` and the
      replacement of `' '` by `'_'`, in that order. */
  function CleanName(s: string): string
  {
    ReplaceChar(RemoveChar(Lower(Strip(s)), '.'), ' ', '_')
  }

  /** The header after the assignment to `df.columns`. */
  function CleanHeader(columns: seq<string>): (r: seq<string>)
    ensures |r| == |columns| && forall i :: 0 <= i < |columns| ==> r[i] == CleanName(columns[i])
  {
    seq(|columns|, i requires 0 <= i < |columns| => CleanName(columns[i]))
  }

  /** `rename(columns={"pm2.5": "pm25"})` when the header holds `"pm2.5"`. */
  function RenamePm25(columns: seq<string>): seq<string>
  {
    if "pm2.5" in columns
    then seq(|columns|, i requires 0 <= i < |columns| => if columns[i] == "pm2.5" then "pm25" else columns[i])
    else columns
  }

  lemma {:induction false} RemoveCharMembers(s: string, c: char)
    ensures forall ch :: ch in RemoveChar(s, c) <==> ch in s && ch != c
  {
    if |s| > 0 {
      RemoveCharMembers(s[1..], c);
      assert s == [s[0]] + s[1..];
    }
  }

  lemma {:induction false} RemoveAbsent(s: string, c: char)
    requires c !in s
    ensures RemoveChar(s, c) == s
  {
    if |s| > 0 {
      assert s == [s[0]] + s[1..];
      RemoveAbsent(s[1..], c);
    }
  }

  /** Removing the one `c` between two parts without it joins the parts. */
  lemma {:induction false} RemoveOne(p: string, c: char, q: string)
    requires c !in p && c !in q
    ensures RemoveChar(p + [c] + q, c) == p + q
  {
    if |p| == 0 {
      assert ([c] + q)[1..] == q;
      RemoveAbsent(q, c);
    } else {
      assert (p + [c] + q)[1..] == p[1..] + [c] + q;
      assert p == [p[0]] + p[1..];
      RemoveOne(p[1..], c, q);
    }
  }

  lemma ReplaceAbsent(s: string, a: char, b: char)
    requires a !in s
    ensures ReplaceChar(s, a, b) == s
  {
  }

  lemma LowerCharFacts(ch: char)
    ensures !('A' <= LowerChar(ch) <= 'Z')
    ensures LowerChar(ch) == '.' <==> ch == '.'
    ensures IsSpace(LowerChar(ch)) <==> IsSpace(ch)
  {
  }

  /** `lower()` changes nothing without capital letters. */
  lemma LowerIdentity(s: string)
    requires forall i :: 0 <= i < |s| ==> !('A' <= s[i] <= 'Z')
    ensures Lower(s) == s
  {
  }

  /** `strip()` changes nothing without whitespace at either end. */
  lemma StripIdentity(s: string)
    requires |s| > 0 && !IsSpace(s[0]) && !IsSpace(s[|s| - 1])
    ensures Strip(s) == s
  {
  }

  /** The stripped name is a slice of the name with no whitespace at its
      ends. */
  lemma StripSlice(s: string) returns (i: nat, j: nat)
    ensures i <= j <= |s| && Strip(s) == s[i..j]
    ensures |Strip(s)| > 0 ==> !IsSpace(Strip(s)[0]) && !IsSpace(Strip(s)[|Strip(s)| - 1])
  {
    var e := StripEnd(s);
    var t := StripStart(e);
    i, j := |e| - |t|, |e|;
    assert s[..|e|][i..] == s[i..j];
    if |t| > 0 {
      assert t[|t| - 1] == e[|e| - 1];
    }
  }

  /** A cleaned name holds no `.`, no `' '` and no ASCII capital letter. */
  lemma CleanNameShape(s: string)
    ensures var r := CleanName(s);
            && '.' !in r && ' ' !in r
            && forall i :: 0 <= i < |r| ==> !('A' <= r[i] <= 'Z')
  {
    var l := Lower(Strip(s));
    var m := RemoveChar(l, '.');
    RemoveCharMembers(l, '.');
    forall i | 0 <= i < |m| ensures !('A' <= m[i] <= 'Z') && m[i] != '.' {
      assert m[i] in l;
      var k :| 0 <= k < |l| && l[k] == m[i];
      LowerCharFacts(Strip(s)[k]);
    }
  }

  /** When the name holds no `.`, the cleaned name has no leading or trailing
      whitespace. */
  lemma CleanNameTrimmed(s: string)
    requires '.' !in s
    ensures var r := CleanName(s);
            |r| > 0 ==> !IsSpace(r[0]) && !IsSpace(r[|r| - 1])
  {
    var i, j := StripSlice(s);
    SliceKeepsAbsent(s, i, j, '.');
    LowerKeeps(Strip(s));
    RemoveAbsent(Lower(Strip(s)), '.');
    ReplaceKeepsEdges(Lower(Strip(s)));
  }

  lemma SliceKeepsAbsent(s: string, i: nat, j: nat, c: char)
    requires c !in s && i <= j <= |s|
    ensures c !in s[i..j]
  {
    forall k | 0 <= k < j - i ensures s[i..j][k] != c { assert s[i..j][k] == s[i + k]; }
  }

  /** `lower()` adds no `.` and keeps whitespace off the ends. */
  lemma LowerKeeps(t: string)
    ensures '.' !in t ==> '.' !in Lower(t)
    ensures |t| > 0 && !IsSpace(t[0]) && !IsSpace(t[|t| - 1]) ==>
              !IsSpace(Lower(t)[0]) && !IsSpace(Lower(t)[|t| - 1])
  {
    if '.' !in t {
      forall k | 0 <= k < |t| ensures Lower(t)[k] != '.' { LowerCharFacts(t[k]); }
    }
    if |t| > 0 {
      LowerCharFacts(t[0]);
      LowerCharFacts(t[|t| - 1]);
    }
  }

  /** Replacing `' '` by `'_'` keeps whitespace off the ends. */
  lemma ReplaceKeepsEdges(l: string)
    requires |l| > 0 ==> !IsSpace(l[0]) && !IsSpace(l[|l| - 1])
    ensures var r := ReplaceChar(l, ' ', '_');
            |r| > 0 ==> !IsSpace(r[0]) && !IsSpace(r[|r| - 1])
  {
  }

  /** Removing dots after stripping can bring whitespace to the edge:
      `".\tx"` cleans to `"\tx"`. */
  lemma DotExposesSpace()
    ensures CleanName(".\tx") == "\tx" && IsSpace(CleanName(".\tx")[0])
  {
    var s := ".\tx";
    StripIdentity(s);
    LowerIdentity(s);
    assert s == [] + ['.'] + "\tx";
    RemoveOne([], '.', "\tx");
    ReplaceAbsent("\tx", ' ', '_');
  }

  /** `"PM2.5"` cleans to `"pm25"`: the dot goes before the rename looks. */
  lemma Pm25Name()
    ensures CleanName("PM2.5") == "pm25"
  {
    StripIdentity("PM2.5");
    assert Lower("PM2.5") == "pm2.5";
    assert "pm2.5" == "pm2" + ['.'] + "5";
    RemoveOne("pm2", '.', "5");
    ReplaceAbsent("pm25", ' ', '_');
  }

  /** No cleaned header holds `"pm2.5"`, so the rename never changes it. */
  lemma RenameNeverFires(columns: seq<string>)
    ensures "pm2.5" !in CleanHeader(columns)
    ensures RenamePm25(CleanHeader(columns)) == CleanHeader(columns)
  {
    var h := CleanHeader(columns);
    forall i | 0 <= i < |h| ensures h[i] != "pm2.5" {
      CleanNameShape(columns[i]);
      assert "pm2.5"[3] == '.';
    }
  }

  // ---------------------------------------------------------------------
  // Rows of one file

  /** A raw row, its date still the text of the `date` cell. */
  datatype RawRecord = RawRecord(
    city: string,
    date: string,
    aqi: Option<real>,
    pm25: Option<real>,
    pm10: Option<real>,
    no2: Option<real>,
    so2: Option<real>,
    co: Option<real>,
    o3: Option<real>)

  function WithDate(r: RawRecord, d: Date): Record
  {
    Record(r.city, d, r.aqi, r.pm25, r.pm10, r.no2, r.so2, r.co, r.o3)
  }

  /** `to_datetime(..., format="%d/%m/%y", errors="coerce")` followed by
      `dropna(subset=["date"])`; `parse` is the date format, `None` where
      the text does not match it. */
  function ParseDates(rows: seq<RawRecord>, parse: string -> Option<Date>): seq<Record>
  {
    if |rows| == 0 then []
    else
      (match parse(rows[0].date)
       case None => []
       case Some(d) => [WithDate(rows[0], d)])
      + ParseDates(rows[1..], parse)
  }

  /** The keys of the rows of `t`. */
  function KeysOf(t: seq<Record>): set<Key>
  {
    set x | x in t :: RecordKey(x)
  }

  /** `drop_duplicates(subset=["city", "date"])`: a row is kept when no
      earlier row has its key. */
  function DropDuplicates(t: seq<Record>): seq<Record>
  {
    if |t| == 0 then []
    else
      var u := DropDuplicates(t[..|t| - 1]);
      if RecordKey(t[|t| - 1]) in KeysOf(u) then u else u + [t[|t| - 1]]
  }

  /** `dropna(subset=["aqi"])`. */
  function DropMissingAqi(t: seq<Record>): seq<Record>
  {
    if |t| == 0 then []
    else (if t[0].aqi.Some? then [t[0]] else []) + DropMissingAqi(t[1..])
  }

  /** Lines 27-33 of `clean_single_file`, on the rows of one file. */
  function CleanSingleFile(rows: seq<RawRecord>, parse: string -> Option<Date>): seq<Record>
  {
    DropMissingAqi(SortBy(DropDuplicates(ParseDates(rows, parse)), RecordKey))
  }

  /** No two rows share a `(city, date)` key. */
  predicate UniqueKeys(t: seq<Record>)
  {
    forall i, j :: 0 <= i < j < |t| ==> RecordKey(t[i]) != RecordKey(t[j])
  }

  /** Row `i` is the first of its key. */
  predicate FirstOfKey(t: seq<Record>, i: int)
    requires 0 <= i < |t|
  {
    forall j :: 0 <= j < i ==> RecordKey(t[j]) != RecordKey(t[i])
  }

  /** The rows kept are those whose date parses, with the parsed date. */
  lemma {:induction false} ParseDatesMembers(rows: seq<RawRecord>, parse: string -> Option<Date>)
    ensures forall x :: x in ParseDates(rows, parse) <==>
              exists i :: 0 <= i < |rows| && parse(rows[i].date).Some? && x == WithDate(rows[i], parse(rows[i].date).value)
  {
    if |rows| > 0 {
      ParseDatesMembers(rows[1..], parse);
      forall x ensures x in ParseDates(rows, parse) <==>
          exists i :: 0 <= i < |rows| && parse(rows[i].date).Some? && x == WithDate(rows[i], parse(rows[i].date).value)
      {
        if x in ParseDates(rows[1..], parse) {
          var i :| 0 <= i < |rows[1..]| && parse(rows[1..][i].date).Some? && x == WithDate(rows[1..][i], parse(rows[1..][i].date).value);
          assert rows[1..][i] == rows[i + 1];
        }
        if exists i :: 0 <= i < |rows| && parse(rows[i].date).Some? && x == WithDate(rows[i], parse(rows[i].date).value) {
          var i :| 0 <= i < |rows| && parse(rows[i].date).Some? && x == WithDate(rows[i], parse(rows[i].date).value);
          if i > 0 { assert rows[1..][i - 1] == rows[i]; }
        }
      }
    }
  }

  lemma KeysOfSnoc(t: seq<Record>, x: Record)
    ensures KeysOf(t + [x]) == KeysOf(t) + {RecordKey(x)}
  {
    forall k | k in KeysOf(t) ensures k in KeysOf(t + [x]) {
      var y :| y in t && RecordKey(y) == k;
      assert y in t + [x];
    }
    assert x in t + [x];
  }

  /** De-duplication keeps every key and adds none. */
  lemma {:induction false} DropDuplicatesKeys(t: seq<Record>)
    ensures KeysOf(DropDuplicates(t)) == KeysOf(t)
  {
    if |t| > 0 {
      var p := t[..|t| - 1];
      var x := t[|t| - 1];
      assert t == p + [x];
      DropDuplicatesKeys(p);
      KeysOfSnoc(p, x);
      KeysOfSnoc(DropDuplicates(p), x);
    }
  }

  /** After de-duplication no two rows share a key. */
  lemma {:induction false} DropDuplicatesUnique(t: seq<Record>)
    ensures UniqueKeys(DropDuplicates(t))
  {
    if |t| > 0 {
      var u := DropDuplicates(t[..|t| - 1]);
      var x := t[|t| - 1];
      DropDuplicatesUnique(t[..|t| - 1]);
      if RecordKey(x) !in KeysOf(u) {
        forall i | 0 <= i < |u| ensures RecordKey(u[i]) != RecordKey(x) {
          assert u[i] in u;
        }
        var r := u + [x];
        forall i, j | 0 <= i < j < |r| ensures RecordKey(r[i]) != RecordKey(r[j]) {
          if j < |u| { assert r[i] == u[i] && r[j] == u[j]; } else { assert r[i] == u[i] && r[j] == x; }
        }
      }
    }
  }

  /** A row is kept exactly when it is the first of its key in file order. */
  lemma DropDuplicatesFirst(t: seq<Record>)
    ensures forall x :: x in DropDuplicates(t) <==> exists i :: 0 <= i < |t| && t[i] == x && FirstOfKey(t, i)
  {
    forall x ensures x in DropDuplicates(t) <==> exists i :: 0 <= i < |t| && t[i] == x && FirstOfKey(t, i) {
      if x in DropDuplicates(t) {
        var i := FirstIfKept(t, x);
      }
      if exists i :: 0 <= i < |t| && t[i] == x && FirstOfKey(t, i) {
        var i :| 0 <= i < |t| && t[i] == x && FirstOfKey(t, i);
        KeptIfFirst(t, i);
      }
    }
  }

  lemma {:induction false} KeptIfFirst(t: seq<Record>, i: nat)
    requires i < |t| && FirstOfKey(t, i)
    ensures t[i] in DropDuplicates(t)
  {
    var n := |t| - 1;
    var p := t[..n];
    if i < n {
      assert p[i] == t[i];
      assert FirstOfKey(p, i) by {
        forall j | 0 <= j < i ensures RecordKey(p[j]) != RecordKey(p[i]) { assert p[j] == t[j]; }
      }
      KeptIfFirst(p, i);
    } else {
      DropDuplicatesKeys(p);
      assert RecordKey(t[n]) !in KeysOf(p) by {
        forall y | y in p ensures RecordKey(y) != RecordKey(t[n]) {
          var j :| 0 <= j < |p| && p[j] == y;
          assert t[j] == y;
        }
      }
    }
  }

  lemma {:induction false} FirstIfKept(t: seq<Record>, x: Record) returns (i: nat)
    requires x in DropDuplicates(t)
    ensures i < |t| && t[i] == x && FirstOfKey(t, i)
  {
    var n := |t| - 1;
    var p := t[..n];
    var u := DropDuplicates(p);
    if x in u {
      i := FirstIfKept(p, x);
      assert t[i] == p[i];
      forall j | 0 <= j < i ensures RecordKey(t[j]) != RecordKey(t[i]) { assert t[j] == p[j]; }
    } else {
      i := n;
      DropDuplicatesKeys(p);
      forall j | 0 <= j < n ensures RecordKey(t[j]) != RecordKey(t[n]) { assert p[j] in p; }
    }
  }

  /** De-duplication keeps the file order. */
  lemma {:induction false} DropDuplicatesSubseq(t: seq<Record>)
    ensures Subseq(DropDuplicates(t), t)
  {
    if |t| > 0 {
      var p := t[..|t| - 1];
      assert t == p + [t[|t| - 1]];
      DropDuplicatesSubseq(p);
      SubseqExtend(DropDuplicates(p), p, t[|t| - 1]);
    }
  }

  lemma {:induction false} DropMissingAqiMembers(t: seq<Record>)
    ensures forall x :: x in DropMissingAqi(t) <==> x in t && x.aqi.Some?
  {
    if |t| > 0 {
      DropMissingAqiMembers(t[1..]);
      assert t == [t[0]] + t[1..];
    }
  }

  lemma {:induction false} DropMissingAqiSubseq(t: seq<Record>)
    ensures Subseq(DropMissingAqi(t), t)
  {
    if |t| > 0 {
      DropMissingAqiSubseq(t[1..]);
      if t[0].aqi.Some? {
        assert ([t[0]] + DropMissingAqi(t[1..]))[1..] == DropMissingAqi(t[1..]);
      } else {
        assert DropMissingAqi(t) == DropMissingAqi(t[1..]);
        SubseqDrop(DropMissingAqi(t[1..]), t);
      }
    }
  }

  /** A subsequence of rows with distinct keys has distinct keys. */
  lemma {:induction false} SubseqUniqueKeys(a: seq<Record>, b: seq<Record>)
    requires Subseq(a, b) && UniqueKeys(b)
    ensures UniqueKeys(a)
    decreases |b|
  {
    if |a| > 0 {
      assert UniqueKeys(b[1..]) by {
        forall i, j | 0 <= i < j < |b[1..]| ensures RecordKey(b[1..][i]) != RecordKey(b[1..][j]) {
          assert b[1..][i] == b[i + 1] && b[1..][j] == b[j + 1];
        }
      }
      if a[0] == b[0] {
        SubseqUniqueKeys(a[1..], b[1..]);
        SubseqMembers(a[1..], b[1..]);
        forall j | 1 <= j < |a| ensures RecordKey(a[0]) != RecordKey(a[j]) {
          assert a[j] in a[1..];
          var m :| 0 <= m < |b[1..]| && b[1..][m] == a[j];
          assert b[m + 1] == a[j];
        }
        forall i, j | 0 <= i < j < |a| ensures RecordKey(a[i]) != RecordKey(a[j]) {
          if i > 0 { assert a[i] == a[1..][i - 1] && a[j] == a[1..][j - 1]; }
        }
      } else {
        SubseqUniqueKeys(a, b[1..]);
      }
    }
  }

  /** Two positions holding the same row make it occur twice. */
  lemma CountTwo<T>(s: seq<T>, i: nat, j: nat)
    requires i < j < |s| && s[i] == s[j]
    ensures multiset(s)[s[i]] >= 2
  {
    assert s == s[..j] + s[j..];
    assert s[i] in s[..j];
    assert s[j] in s[j..];
    assert multiset(s) == multiset(s[..j]) + multiset(s[j..]);
  }

  /** A row occurring twice sits at two positions. */
  lemma {:induction false} TwiceAt<T>(s: seq<T>, x: T) returns (i: nat, j: nat)
    requires multiset(s)[x] >= 2
    ensures i < j < |s| && s[i] == x && s[j] == x
  {
    assert s == [s[0]] + s[1..];
    if s[0] == x {
      assert multiset(s[1..])[x] >= 1;
      var k :| 0 <= k < |s[1..]| && s[1..][k] == x;
      i, j := 0, k + 1;
    } else {
      var i', j' := TwiceAt(s[1..], x);
      i, j := i' + 1, j' + 1;
    }
  }

  /** Two rows with one key in a permutation of `a` come from two rows with
      that key in `a`. */
  lemma SameKeyInPermutation(a: seq<Record>, b: seq<Record>, i: nat, j: nat) returns (p: nat, q: nat)
    requires multiset(a) == multiset(b)
    requires i < j < |b| && RecordKey(b[i]) == RecordKey(b[j])
    ensures p < q < |a| && RecordKey(a[p]) == RecordKey(a[q])
  {
    if b[i] == b[j] {
      CountTwo(b, i, j);
      p, q := TwiceAt(a, b[i]);
    } else {
      assert b[i] in multiset(a) && b[j] in multiset(a);
      var p0 :| 0 <= p0 < |a| && a[p0] == b[i];
      var q0 :| 0 <= q0 < |a| && a[q0] == b[j];
      if p0 < q0 { p, q := p0, q0; } else { p, q := q0, p0; }
    }
  }

  /** Reordering rows keeps their keys distinct. */
  lemma PermutationUniqueKeys(a: seq<Record>, b: seq<Record>)
    requires multiset(a) == multiset(b) && UniqueKeys(a)
    ensures UniqueKeys(b)
  {
    forall i, j | 0 <= i < j < |b| ensures RecordKey(b[i]) != RecordKey(b[j]) {
      if RecordKey(b[i]) == RecordKey(b[j]) {
        var p, q := SameKeyInPermutation(a, b, i, j);
        assert false;
      }
    }
  }

  /** A cleaned file is sorted by `(city, date)`, has one row per key and
      `aqi` in every row. */
  lemma CleanedFile(rows: seq<RawRecord>, parse: string -> Option<Date>)
    ensures var r := CleanSingleFile(rows, parse);
            && SortedBy(r, RecordKey) && UniqueKeys(r)
            && forall x :: x in r ==> x.aqi.Some?
  {
    var d := DropDuplicates(ParseDates(rows, parse));
    var s := SortBy(d, RecordKey);
    DropDuplicatesUnique(ParseDates(rows, parse));
    PermutationUniqueKeys(d, s);
    SortSorted(d, RecordKey);
    DropMissingAqiSubseq(s);
    SubseqSorted(DropMissingAqi(s), s, RecordKey);
    SubseqUniqueKeys(DropMissingAqi(s), s);
    DropMissingAqiMembers(s);
  }

  /** The rows of a cleaned file are exactly the first rows of their key
      among the rows whose date parses, when those carry `aqi`: a later
      duplicate never stands in for a first row without `aqi`. */
  lemma CleanedRows(rows: seq<RawRecord>, parse: string -> Option<Date>)
    ensures var p := ParseDates(rows, parse);
            forall x :: x in CleanSingleFile(rows, parse) <==>
              x.aqi.Some? && exists i :: 0 <= i < |p| && p[i] == x && FirstOfKey(p, i)
  {
    var p := ParseDates(rows, parse);
    var d := DropDuplicates(p);
    var s := SortBy(d, RecordKey);
    DropDuplicatesFirst(p);
    DropMissingAqiMembers(s);
    forall x ensures x in s <==> x in d {
      assert x in s <==> x in multiset(s);
    }
  }

  /** The first row of a key decides: a duplicate with `aqi` after a first
      row without it leaves the key out of the cleaned file. */
  lemma FirstRowDecides(parse: string -> Option<Date>, a: RawRecord, b: RawRecord)
    requires parse(a.date).Some? && parse(b.date) == parse(a.date)
    requires a.city == b.city && a.aqi.None? && b.aqi.Some?
    ensures CleanSingleFile([a, b], parse) == []
  {
    var d := parse(a.date).value;
    var pa, pb := WithDate(a, d), WithDate(b, d);
    assert ParseDates([b], parse) == [pb] by { assert [b][1..] == []; }
    assert ParseDates([a, b], parse) == [pa] + ParseDates([b], parse) by { assert [a, b][1..] == [b]; }
    var p := [pa, pb];
    assert DropDuplicates([pa]) == [pa] by { assert [pa][..0] == []; }
    assert RecordKey(pb) in KeysOf([pa]) by { assert pa in [pa]; }
    assert DropDuplicates(p) == [pa] by { assert p[..1] == [pa]; }
    assert SortBy([pa], RecordKey) == [pa];
    assert DropMissingAqi([pa]) == [] + DropMissingAqi([]);
  }

  // ---------------------------------------------------------------------
  // The merge

  const NoFiles: string := "No CSV files found in raw directory."

  /** `pd.concat(dfs)`. */
  function Concat(dfs: seq<seq<Record>>): seq<Record>
  {
    if |dfs| == 0 then [] else Concat(dfs[..|dfs| - 1]) + dfs[|dfs| - 1]
  }

  function CleanAll(files: seq<seq<RawRecord>>, parse: string -> Option<Date>): (r: seq<seq<Record>>)
    ensures |r| == |files| && forall i :: 0 <= i < |files| ==> r[i] == CleanSingleFile(files[i], parse)
  {
    seq(|files|, i requires 0 <= i < |files| => CleanSingleFile(files[i], parse))
  }

  /** `merge_all_files` on the contents of the files `glob` lists. */
  function Merged(files: seq<seq<RawRecord>>, parse: string -> Option<Date>): Result<seq<Record>, string>
  {
    if |files| == 0 then Failure(NoFiles)
    else Success(SortBy(Concat(CleanAll(files, parse)), RecordKey))
  }

  /** Lines 39-53: the error on no input, the loop cleaning each file in
      turn, the concatenation and the final sort. */
  method MergeAllFiles(files: seq<seq<RawRecord>>, parse: string -> Option<Date>) returns (r: Result<seq<Record>, string>)
    ensures r == Merged(files, parse)
  {
    if |files| == 0 {
      return Failure(NoFiles);
    }
    var dfs: seq<seq<Record>> := [];
    for i := 0 to |files|
      invariant |dfs| == i
      invariant forall j :: 0 <= j < i ==> dfs[j] == CleanSingleFile(files[j], parse)
    {
      var cleaned := CleanSingleFile(files[i], parse);
      dfs := dfs + [cleaned];
    }
    assert dfs == CleanAll(files, parse);
    var merged := Concat(dfs);
    r := Success(SortBy(merged, RecordKey));
  }

  lemma {:induction false} ConcatMembers(dfs: seq<seq<Record>>)
    ensures forall x :: x in Concat(dfs) <==> exists i :: 0 <= i < |dfs| && x in dfs[i]
  {
    if |dfs| > 0 {
      var p := dfs[..|dfs| - 1];
      ConcatMembers(p);
      forall x ensures x in Concat(dfs) <==> exists i :: 0 <= i < |dfs| && x in dfs[i] {
        if exists i :: 0 <= i < |dfs| && x in dfs[i] {
          var i :| 0 <= i < |dfs| && x in dfs[i];
          if i < |p| { assert x in p[i]; }
        }
        if x in Concat(p) {
          var i :| 0 <= i < |p| && x in p[i];
          assert x in dfs[i];
        }
      }
    }
  }

  /** The merge raises exactly when there is no file. */
  lemma MergeRaisesIffEmpty(files: seq<seq<RawRecord>>, parse: string -> Option<Date>)
    ensures Merged(files, parse).Failure? <==> |files| == 0
    ensures Merged(files, parse).Failure? ==> Merged(files, parse).error == NoFiles
  {
  }

  /** The merged table is sorted by `(city, date)`, every row carries `aqi`,
      and its rows are exactly the rows of the cleaned files. */
  lemma MergedTable(files: seq<seq<RawRecord>>, parse: string -> Option<Date>)
    requires |files| > 0
    ensures var m := Merged(files, parse).value;
            && SortedBy(m, RecordKey)
            && (forall x :: x in m ==> x.aqi.Some?)
            && (forall x :: x in m <==> exists i :: 0 <= i < |files| && x in CleanSingleFile(files[i], parse))
  {
    var c := Concat(CleanAll(files, parse));
    var m := SortBy(c, RecordKey);
    SortSorted(c, RecordKey);
    ConcatMembers(CleanAll(files, parse));
    forall x ensures x in m <==> x in c {
      assert x in m <==> x in multiset(m);
    }
    forall i | 0 <= i < |files| ensures forall x :: x in CleanSingleFile(files[i], parse) ==> x.aqi.Some? {
      CleanedFile(files[i], parse);
    }
  }

  /** A row after a row with one key in the concatenation keeps both. */
  lemma {:induction false} ConcatCount(dfs: seq<seq<Record>>, i: nat, j: nat, x: Record)
    requires i < j < |dfs| && x in dfs[i] && x in dfs[j]
    ensures multiset(Concat(dfs))[x] >= 2
  {
    var p := dfs[..|dfs| - 1];
    assert Concat(dfs) == Concat(p) + dfs[|dfs| - 1];
    assert multiset(Concat(dfs)) == multiset(Concat(p)) + multiset(dfs[|dfs| - 1]);
    if j == |dfs| - 1 {
      ConcatMembers(p);
      assert x in p[i];
      assert x in Concat(p);
      assert x in multiset(Concat(p)) && x in multiset(dfs[j]);
    } else {
      assert x in p[i] && x in p[j];
      ConcatCount(p, i, j, x);
    }
  }

  /** The merge does not de-duplicate across files: a row two files share
      appears twice, so the merged keys are not unique. */
  lemma MergeKeepsDuplicates(files: seq<seq<RawRecord>>, parse: string -> Option<Date>, i: nat, j: nat, x: Record)
    requires i < j < |files|
    requires x in CleanSingleFile(files[i], parse) && x in CleanSingleFile(files[j], parse)
    ensures Merged(files, parse).Success? && !UniqueKeys(Merged(files, parse).value)
  {
    var c := Concat(CleanAll(files, parse));
    var m := SortBy(c, RecordKey);
    ConcatCount(CleanAll(files, parse), i, j, x);
    var p, q := TwiceAt(m, x);
  }
}
