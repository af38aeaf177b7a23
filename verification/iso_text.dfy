/** Rewriting of the ISO-8601 timestamps that label hourly and daily buckets:
    `toISOString()` followed by `.replace('T', ' ').replace('Z', '')`. */
module IsoText {
  import Collections

  /** JavaScript's `s.replace(c, rep)` for a one-character string pattern
      and a replacement `rep` holding no `$`: only the first occurrence of `c`
      is replaced. JavaScript expands `$&`, `$$`, `` $` `` and `$'` in `rep`;
      this function inserts `rep` literally, which agrees for the two
      replacements used here, " " and "". */
  function ReplaceFirst(s: string, c: char, rep: string): string
  {
    if |s| == 0 then ""
    else if s[0] == c then rep + s[1..]
    else [s[0]] + ReplaceFirst(s[1..], c, rep)
  }

  /** With the first `c` at position `i`, `rep` takes its place. */
  lemma {:induction false} ReplaceFirstAt(s: string, c: char, rep: string, i: int)
    requires 0 <= i < |s| && s[i] == c && c !in s[..i]
    ensures ReplaceFirst(s, c, rep) == s[..i] + rep + s[i + 1..]
  {
    if i > 0 {
      var tail := s[1..];
      assert s[0] in s[..i];
      assert tail[..i - 1] == s[1..i];
      ReplaceFirstAt(tail, c, rep, i - 1);
      assert s[..i] == [s[0]] + tail[..i - 1];
      assert tail[i..] == s[i + 1..];
    }
  }

  /** Without any `c` the string is untouched. */
  lemma {:induction false} ReplaceFirstAbsent(s: string, c: char, rep: string)
    requires c !in s
    ensures ReplaceFirst(s, c, rep) == s
  {
    if |s| > 0 {
      assert s[0] in s;
      ReplaceFirstAbsent(s[1..], c, rep);
      assert s == [s[0]] + s[1..];
    }
  }

  /** `ReplaceFirst` splices `rep` in at the position `IndexOf` reports, and
      leaves a string without `c` untouched. */
  lemma ReplaceFirstAtIndexOf(s: string, c: char, rep: string)
    ensures var i := Collections.IndexOf(s, c);
            ReplaceFirst(s, c, rep) == if i < 0 then s else s[..i] + rep + s[i + 1..]
  {
    var i := Collections.IndexOf(s, c);
    if i < 0 {
      ReplaceFirstAbsent(s, c, rep);
    } else {
      ReplaceFirstAt(s, c, rep, i);
    }
  }

  /** Length after a first-occurrence replacement. */
  lemma {:induction false} ReplaceFirstLength(s: string, c: char, rep: string)
    ensures |ReplaceFirst(s, c, rep)| == if c in s then |s| - 1 + |rep| else |s|
  {
    if |s| > 0 && s[0] != c {
      ReplaceFirstLength(s[1..], c, rep);
      assert s == [s[0]] + s[1..];
    }
  }

  /** How many times `x` occurs in `s`. */
  function Count(s: string, x: char): (n: nat)
    ensures n > 0 <==> x in s
  {
    if |s| == 0 then 0
    else
      assert s == [s[0]] + s[1..];
      (if s[0] == x then 1 else 0) + Count(s[1..], x)
  }

  /** Character counts after a first-occurrence replacement: one `c` traded
      for the characters of `rep`, when there is a `c` at all. */
  lemma {:induction false} ReplaceFirstCounts(s: string, c: char, rep: string, x: char)
    ensures Count(ReplaceFirst(s, c, rep), x) + (if c in s && x == c then 1 else 0)
            == Count(s, x) + (if c in s then Count(rep, x) else 0)
  {
    if |s| > 0 {
      var tail := s[1..];
      assert s == [s[0]] + tail;
      if s[0] == c {
        CountAppend(rep, tail, x);
      } else {
        ReplaceFirstCounts(tail, c, rep, x);
        assert c in s <==> c in tail;
        assert ([s[0]] + ReplaceFirst(tail, c, rep))[1..] == ReplaceFirst(tail, c, rep);
      }
    }
  }

  lemma {:induction false} CountAppend(a: string, b: string, x: char)
    ensures Count(a + b, x) == Count(a, x) + Count(b, x)
  {
    if |a| > 0 {
      CountAppend(a[1..], b, x);
      assert (a + b)[1..] == a[1..] + b;
    } else {
      assert a + b == b;
    }
  }

  /** The label a bucket timestamp gets: first 'T' becomes a space, first 'Z'
      is dropped. */
  function BucketLabel(iso: string): (r: string)
    ensures |r| == if 'Z' in iso then |iso| - 1 else |iso|
    ensures Count(r, 'T') == if 'T' in iso then Count(iso, 'T') - 1 else 0
    ensures Count(r, 'Z') == if 'Z' in iso then Count(iso, 'Z') - 1 else 0
  {
    var spaced := ReplaceFirst(iso, 'T', " ");
    ReplaceFirstLength(iso, 'T', " ");
    ReplaceFirstLength(spaced, 'Z', "");
    ReplaceFirstCounts(iso, 'T', " ", 'T');
    ReplaceFirstCounts(iso, 'T', " ", 'Z');
    ReplaceFirstCounts(spaced, 'Z', "", 'T');
    ReplaceFirstCounts(spaced, 'Z', "", 'Z');
    assert Count(" ", 'T') == 0 && Count(" ", 'Z') == 0;
    ReplaceFirst(spaced, 'Z', "")
  }

  /** An ISO string holding exactly one 'T' and one 'Z' loses both. */
  lemma BucketLabelDropsSeparators(iso: string)
    requires Count(iso, 'T') == 1 && Count(iso, 'Z') == 1
    ensures 'T' !in BucketLabel(iso) && 'Z' !in BucketLabel(iso)
  {
  }

  predicate IsDigit(ch: char) {
    '0' <= ch <= '9'
  }

  /** The fixed character at position `i` of `YYYY-MM-DDTHH:MM:SS.mmmZ`, or
      '#' where a digit goes. */
  function IsoShape(i: int): char {
    if i == 4 || i == 7 then '-'
    else if i == 10 then 'T'
    else if i == 13 || i == 16 then ':'
    else if i == 19 then '.'
    else if i == 23 then 'Z'
    else '#'
  }

  /** The shape `Date.prototype.toISOString` produces for years 0000-9999. */
  predicate IsCanonicalIso(s: string) {
    && |s| == 24
    && forall i | 0 <= i < 24 ::
         if IsoShape(i) == '#' then IsDigit(s[i]) else s[i] == IsoShape(i)
  }

  /** In a canonical ISO string the only 'T' is at 10 and the only 'Z' at 23. */
  lemma CanonicalSeparators(s: string)
    requires IsCanonicalIso(s)
    ensures s[10] == 'T' && s[23] == 'Z'
    ensures forall j | 0 <= j < 24 && j != 10 :: s[j] != 'T'
    ensures forall j | 0 <= j < 24 && j != 23 :: s[j] != 'Z'
  {
    forall j | 0 <= j < 24 ensures (j != 10 ==> s[j] != 'T') && (j != 23 ==> s[j] != 'Z') {
      if IsoShape(j) == '#' { assert IsDigit(s[j]); }
    }
  }

  /** The first rewrite turns the 'T' at position 10 into a space. */
  lemma CanonicalSpaced(s: string)
    requires IsCanonicalIso(s)
    ensures ReplaceFirst(s, 'T', " ") == s[..10] + " " + s[11..]
  {
    CanonicalSeparators(s);
    assert 'T' !in s[..10];
    assert Collections.IndexOf(s, 'T') == 10;
    ReplaceFirstAtIndexOf(s, 'T', " ");
  }

  /** The second rewrite drops the 'Z' at position 23. */
  lemma CanonicalUnzoned(s: string)
    requires IsCanonicalIso(s)
    ensures ReplaceFirst(s[..10] + " " + s[11..], 'Z', "") == s[..10] + " " + s[11..23]
  {
    CanonicalSeparators(s);
    var spaced := s[..10] + " " + s[11..];
    assert forall j | 0 <= j < 23 :: spaced[j] != 'Z';
    assert 'Z' !in spaced[..23];
    assert Collections.IndexOf(spaced, 'Z') == 23;
    ReplaceFirstAtIndexOf(spaced, 'Z', "");
    assert spaced[..23] == s[..10] + " " + s[11..23];
  }

  /** On a canonical ISO string the label is `YYYY-MM-DD HH:MM:SS.mmm`: date
      part, a space, time part, 23 characters, no 'T' and no 'Z'. */
  lemma CanonicalLabel(s: string)
    requires IsCanonicalIso(s)
    ensures BucketLabel(s) == s[..10] + " " + s[11..23]
    ensures |BucketLabel(s)| == 23
    ensures 'T' !in BucketLabel(s) && 'Z' !in BucketLabel(s)
  {
    CanonicalSpaced(s);
    CanonicalUnzoned(s);
    CanonicalSeparators(s);
    var r := s[..10] + " " + s[11..23];
    assert forall j | 0 <= j < 23 :: r[j] != 'T' && r[j] != 'Z';
  }

  /** Distinct canonical timestamps keep distinct labels, so the rewrite never
      merges two buckets. */
  lemma CanonicalLabelInjective(a: string, b: string)
    requires IsCanonicalIso(a) && IsCanonicalIso(b)
    requires BucketLabel(a) == BucketLabel(b)
    ensures a == b
  {
    CanonicalLabel(a);
    CanonicalLabel(b);
    CanonicalSeparators(a);
    CanonicalSeparators(b);
    var l := BucketLabel(a);
    forall j | 0 <= j < 24 ensures a[j] == b[j] {
      if j < 10 {
        assert a[j] == l[j] == b[j];
      } else if 10 < j < 23 {
        assert a[j] == l[j] == b[j];
      }
    }
  }

  /** The instant 2020-01-01T00:00:00.000Z renders as 2020-01-01 00:00:00.000. */
  lemma LabelExample()
    ensures BucketLabel("2020-01-01T00:00:00.000Z") == "2020-01-01 00:00:00.000"
  {
    ExampleIsCanonical();
    CanonicalLabel("2020-01-01T00:00:00.000Z");
    ExampleSlices();
  }

  lemma ExampleIsCanonical()
    ensures IsCanonicalIso("2020-01-01T00:00:00.000Z")
  {
  }

  lemma ExampleSlices()
    ensures "2020-01-01T00:00:00.000Z"[..10] + " " + "2020-01-01T00:00:00.000Z"[11..23]
         == "2020-01-01 00:00:00.000"
  {
  }
}
