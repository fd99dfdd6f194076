/** The two `java.lang.String` operations the configuration reader relies on:
    `trim()`, and `split("[, ]")` as carried out by `java.util.regex.Pattern.split`
    with a limit of zero. */
module JavaStrings {

  // ---------------------------------------------------------------------------
  // String.trim
  // ---------------------------------------------------------------------------

  /** `trim` removes every character whose code is at most U+0020. */
  predicate IsTrimmable(c: char) {
    c <= ' '
  }

  predicate AllTrimmable(s: string) {
    forall k :: 0 <= k < |s| ==> IsTrimmable(s[k])
  }

  /** The number of trimmable characters at the front of `s`. */
  function LeadingTrimmable(s: string): (n: nat)
    ensures n <= |s|
    ensures forall k :: 0 <= k < n ==> IsTrimmable(s[k])
    ensures n < |s| ==> !IsTrimmable(s[n])
  {
    if |s| > 0 && IsTrimmable(s[0]) then 1 + LeadingTrimmable(s[1..]) else 0
  }

  /** The length of `s` once its trimmable tail is cut off. */
  function TrailingEnd(s: string): (m: nat)
    ensures m <= |s|
    ensures forall k :: m <= k < |s| ==> IsTrimmable(s[k])
    ensures m > 0 ==> !IsTrimmable(s[m - 1])
  {
    if |s| > 0 && IsTrimmable(s[|s| - 1]) then TrailingEnd(s[..|s| - 1]) else |s|
  }

  /** `s.trim()`: the part of `s` between its trimmable head and tail. */
  function Trim(s: string): (r: string)
    ensures |r| + LeadingTrimmable(s) <= |s|
    ensures r == s[LeadingTrimmable(s) .. LeadingTrimmable(s) + |r|]
    ensures forall k :: LeadingTrimmable(s) + |r| <= k < |s| ==> IsTrimmable(s[k])
    ensures |r| > 0 ==> !IsTrimmable(r[0]) && !IsTrimmable(r[|r| - 1])
  {
    var rest := s[LeadingTrimmable(s)..];
    rest[..TrailingEnd(rest)]
  }

  /** `"".equals(s.trim())`: a string is blank exactly when every character
      of it is trimmable, the empty string included. */
  lemma TrimEmptyIff(s: string)
    ensures Trim(s) == "" <==> AllTrimmable(s)
  {
    var st := LeadingTrimmable(s);
    if Trim(s) == "" {
      forall k | 0 <= k < |s|
        ensures IsTrimmable(s[k])
      {
        if k >= st {
          assert st + |Trim(s)| <= k;
        }
      }
    } else {
      assert s[st] == Trim(s)[0];
    }
  }

  /** Trimming a trimmed string changes nothing. */
  lemma TrimIdempotent(s: string)
    ensures Trim(Trim(s)) == Trim(s)
  {
    var t := Trim(s);
    if |t| > 0 {
      assert LeadingTrimmable(t) == 0;
      assert TrailingEnd(t) == |t|;
      assert t[0..] == t;
    }
  }

  // ---------------------------------------------------------------------------
  // String.split("[, ]")
  // ---------------------------------------------------------------------------

  /** The regular expression `[, ]` matches one comma or one space. */
  predicate IsSeparator(c: char) {
    c == ',' || c == ' '
  }

  predicate NoSeparator(s: string) {
    forall k :: 0 <= k < |s| ==> !IsSeparator(s[k])
  }

  /** The separators of `s`, in order. */
  function Separators(s: string): (ps: seq<char>)
    ensures |ps| <= |s|
    ensures forall i :: 0 <= i < |ps| ==> IsSeparator(ps[i])
  {
    if |s| == 0 then []
    else if IsSeparator(s[0]) then [s[0]] + Separators(s[1..])
    else Separators(s[1..])
  }

  /** A string has no separators exactly when it contains no comma or space. */
  lemma {:induction false} SeparatorsEmptyIff(s: string)
    ensures Separators(s) == [] <==> NoSeparator(s)
  {
    if |s| > 0 {
      SeparatorsEmptyIff(s[1..]);
      if NoSeparator(s) {
        assert NoSeparator(s[1..]) by {
          forall k | 0 <= k < |s| - 1 ensures !IsSeparator(s[1..][k]) {
            assert s[1..][k] == s[k + 1];
          }
        }
      } else if !IsSeparator(s[0]) {
        var k :| 0 <= k < |s| && IsSeparator(s[k]);
        assert s[1..][k - 1] == s[k];
      }
    }
  }

  /** The text between consecutive separators, empty pieces included: one more
      field than there are separators. */
  function RawFields(s: string): (fs: seq<string>)
    ensures |fs| == |Separators(s)| + 1
  {
    if |s| == 0 then [""]
    else if IsSeparator(s[0]) then [""] + RawFields(s[1..])
    else
      var rest := RawFields(s[1..]);
      [[s[0]] + rest[0]] + rest[1..]
  }

  /** No raw field contains a separator. */
  lemma {:induction false} RawFieldsHaveNoSeparator(s: string)
    ensures forall i :: 0 <= i < |RawFields(s)| ==> NoSeparator(RawFields(s)[i])
  {
    if |s| > 0 {
      RawFieldsHaveNoSeparator(s[1..]);
      var rest := RawFields(s[1..]);
      if !IsSeparator(s[0]) {
        var first := [s[0]] + rest[0];
        assert NoSeparator(first) by {
          forall k | 0 <= k < |first| ensures !IsSeparator(first[k]) {
            if k > 0 { assert first[k] == rest[0][k - 1]; }
          }
        }
      }
    }
  }

  /** Fields put back together with one separator between each pair. */
  function Join(fs: seq<string>, ps: seq<char>): string
    requires |fs| == |ps| + 1
    decreases |ps|
  {
    if |ps| == 0 then fs[0] else fs[0] + [ps[0]] + Join(fs[1..], ps[1..])
  }

  /** Drops the empty fields at the end of `fs`, as `split` with limit zero does. */
  function DropTrailingEmpty(fs: seq<string>): (r: seq<string>)
    ensures |r| <= |fs| && r == fs[..|r|]
    ensures |r| > 0 ==> r[|r| - 1] != ""
    ensures forall i :: |r| <= i < |fs| ==> fs[i] == ""
  {
    if |fs| > 0 && fs[|fs| - 1] == "" then DropTrailingEmpty(fs[..|fs| - 1]) else fs
  }

  /** `s.split("[, ]")`. A string without any separator comes back whole, as a
      one-element array (this is what makes `"".split(...)` a one-element array);
      otherwise the fields between separators, leading and inner empty fields
      kept and trailing empty fields removed. */
  function Split(s: string): (fs: seq<string>)
    ensures |fs| <= |Separators(s)| + 1
    ensures forall i :: 0 <= i < |fs| ==> NoSeparator(fs[i])
    ensures NoSeparator(s) ==> fs == [s]
  {
    SeparatorsEmptyIff(s);
    if Separators(s) == [] then
      [s]
    else
      RawFieldsHaveNoSeparator(s);
      DropTrailingEmpty(RawFields(s))
  }

  /** A separator-free string is its own only field. */
  lemma {:induction false} NoSeparatorFields(s: string)
    requires NoSeparator(s)
    ensures RawFields(s) == [s]
  {
    if |s| > 0 {
      NoSeparatorFields(s[1..]);
      assert [s[0]] + s[1..] == s;
    }
  }

  /** A separator right after a separator-free prefix closes the first field. */
  lemma {:induction false} FieldThenRest(a: string, p: char, b: string)
    requires NoSeparator(a) && IsSeparator(p)
    ensures RawFields(a + [p] + b) == [a] + RawFields(b)
    ensures Separators(a + [p] + b) == [p] + Separators(b)
  {
    var s := a + [p] + b;
    if |a| == 0 {
      assert s == [p] + b;
      assert s[1..] == b;
    } else {
      assert s[1..] == a[1..] + [p] + b;
      FieldThenRest(a[1..], p, b);
      assert [a[0]] + a[1..] == a;
    }
  }

  /** Joining the raw fields with the separators gives the string back. */
  lemma {:induction false} JoinRawFields(s: string)
    ensures Join(RawFields(s), Separators(s)) == s
  {
    if |s| == 0 {
    } else if IsSeparator(s[0]) {
      JoinRawFields(s[1..]);
      assert [""] + RawFields(s[1..]) == RawFields(s);
      assert ([""] + RawFields(s[1..]))[1..] == RawFields(s[1..]);
      assert s == [s[0]] + s[1..];
    } else {
      JoinRawFields(s[1..]);
      JoinAfterWordChar(s);
    }
  }

  /** The step of `JoinRawFields` for a string opening with a non-separator:
      that character joins the first field of the rest. */
  lemma JoinAfterWordChar(s: string)
    requires |s| > 0 && !IsSeparator(s[0])
    requires Join(RawFields(s[1..]), Separators(s[1..])) == s[1..]
    ensures Join(RawFields(s), Separators(s)) == s
  {
    var rest := RawFields(s[1..]);
    var ps := Separators(s[1..]);
    var c := [s[0]];
    var fs := [c + rest[0]] + rest[1..];
    assert Separators(s) == ps;
    assert RawFields(s) == fs;
    assert s == c + s[1..];
    if |ps| == 0 {
      assert Join(rest, ps) == rest[0];
      assert Join(fs, ps) == fs[0];
    } else {
      var tail := Join(rest[1..], ps[1..]);
      assert fs[1..] == rest[1..];
      assert Join(rest, ps) == rest[0] + [ps[0]] + tail;
      assert Join(fs, ps) == (c + rest[0]) + [ps[0]] + tail;
      Regroup(c, rest[0], [ps[0]], tail);
    }
  }

  /** Concatenation regrouped: a prefix stays in front of the rest. */
  lemma Regroup(a: string, b: string, c: string, d: string)
    ensures a + b + c + d == a + (b + c + d)
  {
  }

  /** The raw fields are the only separator-free pieces that join back into `s`:
      fields and separators are determined by the string. */
  lemma {:induction false} RawFieldsUnique(s: string, fs: seq<string>, ps: seq<char>)
    requires |fs| == |ps| + 1
    requires forall i :: 0 <= i < |fs| ==> NoSeparator(fs[i])
    requires forall i :: 0 <= i < |ps| ==> IsSeparator(ps[i])
    requires Join(fs, ps) == s
    ensures fs == RawFields(s) && ps == Separators(s)
    decreases |ps|
  {
    if |ps| == 0 {
      NoSeparatorFields(s);
    } else {
      var b := Join(fs[1..], ps[1..]);
      RawFieldsUnique(b, fs[1..], ps[1..]);
      FieldThenRest(fs[0], ps[0], b);
      assert fs == [fs[0]] + fs[1..];
      assert ps == [ps[0]] + ps[1..];
    }
  }

  /** Joining fields followed by empty ones: the empty fields contribute only
      their separators. */
  lemma {:induction false} JoinWithEmptyTail(fs: seq<string>, ps: seq<char>, n: nat)
    requires |fs| == |ps| + 1
    requires 0 < n <= |fs|
    requires forall i :: n <= i < |fs| ==> fs[i] == ""
    ensures Join(fs, ps) == Join(fs[..n], ps[..n - 1]) + ps[n - 1..]
    decreases |ps|
  {
    if |ps| == 0 {
    } else if n == 1 {
      JoinEmpties(fs[1..], ps[1..]);
      assert ps[0..] == [ps[0]] + ps[1..];
    } else {
      JoinWithEmptyTail(fs[1..], ps[1..], n - 1);
      assert fs[1..][..n - 1] == fs[..n][1..];
      assert ps[1..][..n - 2] == ps[..n - 1][1..];
      assert ps[1..][n - 2..] == ps[n - 1..];
    }
  }

  /** Empty fields joined by separators are just the separators. */
  lemma {:induction false} JoinEmpties(fs: seq<string>, ps: seq<char>)
    requires |fs| == |ps| + 1
    requires forall i :: 0 <= i < |fs| ==> fs[i] == ""
    ensures Join(fs, ps) == ps
    decreases |ps|
  {
    if |ps| > 0 {
      JoinEmpties(fs[1..], ps[1..]);
      assert ps == [ps[0]] + ps[1..];
    }
  }

  /** What `split` keeps reconstructs the string: the kept fields joined with
      the separators between them, followed by the separators of the dropped
      trailing empty fields. */
  lemma SplitReconstructs(s: string)
    requires Split(s) != []
    ensures |Split(s)| - 1 <= |Separators(s)|
    ensures s == Join(Split(s), Separators(s)[..|Split(s)| - 1]) + Separators(s)[|Split(s)| - 1..]
  {
    var ps := Separators(s);
    var fs := Split(s);
    if ps == [] {
      assert fs == [s];
      assert Join(fs, ps[..0]) == s;
    } else {
      var raw := RawFields(s);
      var n := |fs|;
      assert fs == DropTrailingEmpty(raw);
      assert fs == raw[..n];
      assert forall i :: n <= i < |raw| ==> raw[i] == "";
      JoinRawFields(s);
      JoinWithEmptyTail(raw, ps, n);
      assert s == Join(fs, ps[..n - 1]) + ps[n - 1..];
    }
  }

  /** `split` returns an empty array exactly for a non-empty string made only
      of commas and spaces. */
  lemma SplitEmptyIff(s: string)
    ensures Split(s) == [] <==> |s| > 0 && forall k :: 0 <= k < |s| ==> IsSeparator(s[k])
  {
    if |s| > 0 && forall k :: 0 <= k < |s| ==> IsSeparator(s[k]) {
      assert IsSeparator(s[0]);
      assert Separators(s) != [];
      AllSeparatorsEmptyFields(s);
    }
    if Split(s) == [] {
      assert Separators(s) != [];
      var raw := RawFields(s);
      assert forall i :: 0 <= i < |raw| ==> raw[i] == "";
      JoinRawFields(s);
      JoinEmpties(raw, Separators(s));
    }
  }

  /** In a string of separators only, every raw field is empty. */
  lemma {:induction false} AllSeparatorsEmptyFields(s: string)
    requires forall k :: 0 <= k < |s| ==> IsSeparator(s[k])
    ensures forall i :: 0 <= i < |RawFields(s)| ==> RawFields(s)[i] == ""
  {
    if |s| > 0 {
      AllSeparatorsEmptyFields(s[1..]);
    }
  }

  /** A lone comma splits into nothing at all. */
  lemma SplitLoneComma()
    ensures Split(",") == []
  {
    assert ","[1..] == "";
    assert RawFields(",") == ["", ""];
    assert ["", ""][..1] == [""];
    assert DropTrailingEmpty(["", ""]) == [];
  }

  /** Inner empty fields stay, trailing ones go. */
  lemma SplitInnerAndTrailingEmpty()
    ensures Split("a,,b,") == ["a", "", "b"]
  {
    var s := "a,,b,";
    RawFieldsOfInnerAndTrailingEmpty();
    assert Separators(s) != [] by { assert IsSeparator(s[1]); }
    assert ["a", "", "b", ""][..3] == ["a", "", "b"];
    assert DropTrailingEmpty(["a", "", "b", ""]) == DropTrailingEmpty(["a", "", "b"]);
  }

  lemma RawFieldsOfInnerAndTrailingEmpty()
    ensures RawFields("a,,b,") == ["a", "", "b", ""]
  {
    FieldThenRest("b", ',', "");
    assert "b" + [','] + "" == "b,";
    FieldThenRest("", ',', "b,");
    assert "" + [','] + "b," == ",b,";
    FieldThenRest("a", ',', ",b,");
    assert "a" + [','] + ",b," == "a,,b,";
  }

  /** A leading space yields an empty first field, and so does the space of
      a comma-space pair. */
  lemma SplitSpaces()
    ensures Split(" a") == ["", "a"]
    ensures Split("a, b") == ["a", "", "b"]
  {
    LeadingSpace("a");
    assert [' '] + "a" == " a";
    RawFieldsOfCommaSpace();
    assert Separators(" a") != [] by { SeparatorsEmptyIff(" a"); assert IsSeparator(" a"[0]); }
    assert Separators("a, b") != [] by { SeparatorsEmptyIff("a, b"); assert IsSeparator("a, b"[1]); }
    assert DropTrailingEmpty(["", "a"]) == ["", "a"];
    assert DropTrailingEmpty(["a", "", "b"]) == ["a", "", "b"];
  }

  /** A leading space in front of a separator-free word opens an empty field. */
  lemma LeadingSpace(w: string)
    requires NoSeparator(w)
    ensures RawFields([' '] + w) == ["", w]
  {
    FieldThenRest("", ' ', w);
    assert "" + [' '] + w == [' '] + w;
    NoSeparatorFields(w);
  }

  lemma RawFieldsOfCommaSpace()
    ensures RawFields("a, b") == ["a", "", "b"]
  {
    LeadingSpace("b");
    assert [' '] + "b" == " b";
    FieldThenRest("a", ',', " b");
    assert "a" + [','] + " b" == "a, b";
  }

  /** The scan `Pattern.split` performs: collect the text before each match,
      return the input whole when nothing matched, add the remaining segment,
      then shrink the result while its last element is empty. */
  method SplitScan(s: string) returns (fields: seq<string>)
    ensures fields == Split(s)
  {
    var matchList, index := CollectSegments(s);
    if index == 0 {
      return [s];
    }
    NoSeparatorFields(s[index..]);
    matchList := matchList + [s[index..]];
    fields := ShrinkTrailingEmpty(matchList);
  }

  /** The match loop of `Pattern.split`: `matchList` holds the segment before
      each separator and `index` is where the text after the last separator
      starts (zero when there was no separator). */
  method CollectSegments(s: string) returns (matchList: seq<string>, index: nat)
    ensures index <= |s|
    ensures index == 0 <==> NoSeparator(s)
    ensures NoSeparator(s[index..])
    ensures matchList + RawFields(s[index..]) == RawFields(s)
  {
    matchList := [];
    index := 0;
    var k := 0;
    assert s[0..] == s;
    while k < |s|
      invariant k <= |s|
      invariant Scanned(s, matchList, index, k)
    {
      if IsSeparator(s[k]) {
        ScanSeparator(s, matchList, index, k);
        matchList := matchList + [s[index..k]];
        index := k + 1;
      } else {
        ScanOther(s, matchList, index, k);
      }
      k := k + 1;
    }
    ScanDone(s, matchList, index);
  }

  /** The state of the match loop after reading `s[..k]`: the segment after
      the last separator so far starts at `index` and holds no separator,
      `index` follows a separator (or is zero), and `matchList` holds the
      fields that precede it. */
  predicate Scanned(s: string, matchList: seq<string>, index: nat, k: nat) {
    && index <= k <= |s|
    && (forall j :: index <= j < k ==> !IsSeparator(s[j]))
    && (index > 0 ==> IsSeparator(s[index - 1]))
    && matchList + RawFields(s[index..]) == RawFields(s)
  }

  /** A separator at `k` closes the segment that started at `index`. */
  lemma ScanSeparator(s: string, matchList: seq<string>, index: nat, k: nat)
    requires k < |s| && Scanned(s, matchList, index, k) && IsSeparator(s[k])
    ensures Scanned(s, matchList + [s[index..k]], k + 1, k + 1)
  {
    assert s[index..] == s[index..k] + [s[k]] + s[k + 1..];
    assert NoSeparator(s[index..k]) by {
      forall j | 0 <= j < k - index ensures !IsSeparator(s[index..k][j]) {
        assert s[index..k][j] == s[index + j];
      }
    }
    FieldThenRest(s[index..k], s[k], s[k + 1..]);
    assert matchList + ([s[index..k]] + RawFields(s[k + 1..])) == RawFields(s);
    assert (matchList + [s[index..k]]) + RawFields(s[k + 1..]) == RawFields(s);
  }

  /** Any other character extends the current segment. */
  lemma ScanOther(s: string, matchList: seq<string>, index: nat, k: nat)
    requires k < |s| && Scanned(s, matchList, index, k) && !IsSeparator(s[k])
    ensures Scanned(s, matchList, index, k + 1)
  {
  }

  /** At the end of the input the loop's state gives the method's result. */
  lemma ScanDone(s: string, matchList: seq<string>, index: nat)
    requires Scanned(s, matchList, index, |s|)
    ensures index == 0 <==> NoSeparator(s)
    ensures NoSeparator(s[index..])
    ensures matchList + RawFields(s[index..]) == RawFields(s)
  {
    assert forall j :: 0 <= j < |s| - index ==> s[index..][j] == s[index + j];
  }

  /** The final loop of `Pattern.split` with limit zero: shrink the result
      while its last element is the empty string. */
  method ShrinkTrailingEmpty(list: seq<string>) returns (r: seq<string>)
    ensures r == DropTrailingEmpty(list)
  {
    var resultSize := |list|;
    assert list[..resultSize] == list;
    while resultSize > 0 && list[resultSize - 1] == ""
      invariant 0 <= resultSize <= |list|
      invariant DropTrailingEmpty(list[..resultSize]) == DropTrailingEmpty(list)
    {
      DropLastEmpty(list, resultSize);
      resultSize := resultSize - 1;
    }
    r := list[..resultSize];
    assert r == [] || r[|r| - 1] != "";
  }

  /** One step of the shrinking loop. */
  lemma DropLastEmpty(list: seq<string>, n: nat)
    requires 0 < n <= |list| && list[n - 1] == ""
    ensures DropTrailingEmpty(list[..n]) == DropTrailingEmpty(list[..n - 1])
  {
    assert list[..n][..n - 1] == list[..n - 1];
  }
}
