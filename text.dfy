/** The string operations the service relies on, restricted to ASCII:
    `toLowerCase`, `equalsIgnoreCase`, `trim` (behind `@NotBlank`), `split(",")`,
    a case-insensitive substring test (the keyword search) and the binary
    string order the document store sorts by. */
module Text {

  /** ASCII `Character.toLowerCase`. */
  function LowerChar(c: char): char {
    if 'A' <= c <= 'Z' then (c as int + 32) as char else c
  }

  /** `String.toLowerCase`, character by character. */
  function ToLower(s: string): (r: string)
    ensures |r| == |s|
    ensures forall i :: 0 <= i < |s| ==> r[i] == LowerChar(s[i])
  {
    if s == [] then [] else [LowerChar(s[0])] + ToLower(s[1..])
  }

  /** Lower-casing gives `t` when every character of `s` lowers to its counterpart in `t`. */
  lemma LowerAll(s: string, t: string)
    requires |s| == |t| && forall i :: 0 <= i < |s| ==> LowerChar(s[i]) == t[i]
    ensures ToLower(s) == t
  {
  }

  /** Lower-casing twice is lower-casing once. */
  lemma ToLowerIdempotent(s: string)
    ensures ToLower(ToLower(s)) == ToLower(s)
  {
    assert forall i :: 0 <= i < |s| ==> ToLower(ToLower(s))[i] == ToLower(s)[i];
  }

  /** `String.equalsIgnoreCase` (ASCII case folding). */
  predicate EqualsIgnoreCase(a: string, b: string) {
    ToLower(a) == ToLower(b)
  }

  /** Strings that differ only in letter case are equal ignoring case. */
  lemma EqualsIgnoreCaseOfLower(s: string)
    ensures EqualsIgnoreCase(s, ToLower(s))
  {
    ToLowerIdempotent(s);
  }

  // ---------------------------------------------------------------------------
  // trim and @NotBlank

  /** Characters `String.trim` removes: every code point up to and including space. */
  predicate IsTrimmed(c: char) {
    c <= ' '
  }

  /** The leading half of `String.trim`: the suffix left after dropping leading blanks. */
  function TrimStart(s: string): (r: string)
    ensures |r| <= |s| && r == s[|s| - |r|..]
    ensures forall i :: 0 <= i < |s| - |r| ==> IsTrimmed(s[i])
    ensures r != [] ==> !IsTrimmed(r[0])
  {
    if s != [] && IsTrimmed(s[0]) then TrimStart(s[1..]) else s
  }

  /** The trailing half of `String.trim`: the prefix left after dropping trailing blanks. */
  function TrimEnd(s: string): (r: string)
    ensures |r| <= |s| && r == s[..|r|]
    ensures forall i :: |r| <= i < |s| ==> IsTrimmed(s[i])
    ensures r != [] ==> !IsTrimmed(r[|r| - 1])
  {
    if s != [] && IsTrimmed(s[|s| - 1]) then TrimEnd(s[..|s| - 1]) else s
  }

  /** `String.trim`. */
  function Trim(s: string): string {
    TrimEnd(TrimStart(s))
  }

  /** Bean Validation's `@NotBlank` on a non-null string: `trim().length() > 0`. */
  predicate NotBlank(s: string) {
    |Trim(s)| > 0
  }

  /** A string is not blank exactly when some character of it is above space. */
  lemma {:induction false} NotBlankIff(s: string)
    ensures NotBlank(s) <==> exists i :: 0 <= i < |s| && !IsTrimmed(s[i])
  {
    var t := TrimStart(s);
    var r := TrimEnd(t);
    if r != [] {
      var k := |s| - |t| + |r| - 1;
      assert t[|r| - 1] == r[|r| - 1];
      assert s[k] == t[|r| - 1];
    }
    if i :| 0 <= i < |s| && !IsTrimmed(s[i]) {
      assert |s| - |t| <= i;
      assert t != [] && !IsTrimmed(t[0]);
      assert r != [];
    }
  }

  // ---------------------------------------------------------------------------
  // split(",") and the empty-segment filter

  /** The segments of `s` between commas, empty ones included ("a,,b" gives "a", "", "b"). */
  function Segments(s: string): (r: seq<string>)
    ensures |r| >= 1
    ensures forall i :: 0 <= i < |r| ==> ',' !in r[i]
  {
    if s == [] then [""]
    else
      var rest := Segments(s[1..]);
      if s[0] == ',' then [""] + rest
      else [[s[0]] + rest[0]] + rest[1..]
  }

  /** Joining segments back with commas. */
  function JoinWithCommas(xs: seq<string>): string
    requires |xs| >= 1
  {
    if |xs| == 1 then xs[0] else xs[0] + "," + JoinWithCommas(xs[1..])
  }

  /** Splitting loses nothing: re-joining the segments gives the input back. */
  lemma {:induction false} JoinSegments(s: string)
    ensures JoinWithCommas(Segments(s)) == s
  {
    if s != [] {
      var rest := Segments(s[1..]);
      JoinSegments(s[1..]);
      if s[0] == ',' {
        assert Segments(s) == [""] + rest;
        assert [""] + rest == [""] + rest;
        assert JoinWithCommas([""] + rest) == "" + "," + JoinWithCommas(rest);
        assert s == [s[0]] + s[1..];
      } else {
        var x := [[s[0]] + rest[0]] + rest[1..];
        assert Segments(s) == x;
        if |rest| == 1 {
          assert JoinWithCommas(x) == [s[0]] + rest[0];
        } else {
          assert x[1..] == rest[1..];
          assert JoinWithCommas(x) == [s[0]] + rest[0] + "," + JoinWithCommas(rest[1..]);
          assert JoinWithCommas(rest) == rest[0] + "," + JoinWithCommas(rest[1..]);
        }
        assert s == [s[0]] + s[1..];
      }
    }
  }

  /** A comma-free prefix glues onto the first segment of what follows it. */
  lemma {:induction false} SegmentsOfPrefix(a: string, t: string)
    requires ',' !in a
    ensures Segments(a + t) == [a + Segments(t)[0]] + Segments(t)[1..]
  {
    if a != [] {
      SegmentsOfPrefix(a[1..], t);
      assert (a + t)[1..] == a[1..] + t;
      assert (a + t)[0] == a[0];
      assert [a[0]] + (a[1..] + Segments(t)[0]) == a + Segments(t)[0];
    } else {
      assert a + t == t;
      assert Segments(t) == [Segments(t)[0]] + Segments(t)[1..];
      assert a + Segments(t)[0] == Segments(t)[0];
    }
  }

  /** Splitting undoes joining, for comma-free parts. */
  lemma {:induction false} SegmentsOfJoin(xs: seq<string>)
    requires |xs| >= 1
    requires forall i :: 0 <= i < |xs| ==> ',' !in xs[i]
    ensures Segments(JoinWithCommas(xs)) == xs
  {
    if |xs| == 1 {
      SegmentsOfPrefix(xs[0], "");
      assert xs[0] + "" == xs[0];
    } else {
      var tail := JoinWithCommas(xs[1..]);
      SegmentsOfJoin(xs[1..]);
      assert xs[0] + "," + tail == xs[0] + ("," + tail);
      SegmentsOfPrefix(xs[0], "," + tail);
      assert ("," + tail)[1..] == tail;
      assert Segments("," + tail) == [""] + xs[1..];
      assert xs[0] + "" == xs[0];
    }
  }

  /** `.filter(s -> !s.isEmpty())` over a list of segments. */
  function DropEmpty(xs: seq<string>): (r: seq<string>)
    ensures |r| <= |xs|
    ensures forall i :: 0 <= i < |r| ==> r[i] != ""
    ensures forall x :: x in r <==> x in xs && x != ""
  {
    if xs == [] then []
    else if xs[0] == "" then DropEmpty(xs[1..])
    else [xs[0]] + DropEmpty(xs[1..])
  }

  /** Dropping empty strings from a list that has none changes nothing (order is kept). */
  lemma {:induction false} DropEmptyKeeps(xs: seq<string>)
    requires forall i :: 0 <= i < |xs| ==> xs[i] != ""
    ensures DropEmpty(xs) == xs
  {
    if xs != [] {
      DropEmptyKeeps(xs[1..]);
    }
  }

  /** `Arrays.stream(s.split(",")).filter(x -> !x.isEmpty()).toList()`:
      the non-empty comma-separated values of `s`, in order. */
  function SplitNonEmpty(s: string): (r: seq<string>)
    ensures forall i :: 0 <= i < |r| ==> r[i] != "" && ',' !in r[i]
  {
    var segs := Segments(s);
    var r := DropEmpty(segs);
    assert forall i :: 0 <= i < |r| ==> r[i] in segs;
    r
  }

  /** A list of non-empty, comma-free values survives a round trip through a
      comma-separated parameter, order included. */
  lemma SplitNonEmptyOfJoin(xs: seq<string>)
    requires |xs| >= 1
    requires forall i :: 0 <= i < |xs| ==> xs[i] != "" && ',' !in xs[i]
    ensures SplitNonEmpty(JoinWithCommas(xs)) == xs
  {
    SegmentsOfJoin(xs);
    DropEmptyKeeps(xs);
  }

  /** The filter works element by element: over a concatenation it is the
      concatenation of the filtered parts, so the kept values keep their order. */
  lemma {:induction false} DropEmptyAppend(xs: seq<string>, ys: seq<string>)
    ensures DropEmpty(xs + ys) == DropEmpty(xs) + DropEmpty(ys)
  {
    if xs == [] {
      assert xs + ys == ys;
    } else {
      var zs := xs + ys;
      assert zs[0] == xs[0] && zs[1..] == xs[1..] + ys;
      DropEmptyAppend(xs[1..], ys);
      var rest := DropEmpty(xs[1..]);
      if xs[0] == "" {
        assert DropEmpty(zs) == DropEmpty(zs[1..]);
        assert DropEmpty(xs) == rest;
      } else {
        assert DropEmpty(zs) == [xs[0]] + DropEmpty(zs[1..]);
        assert DropEmpty(xs) == [xs[0]] + rest;
        assert [xs[0]] + (rest + DropEmpty(ys)) == ([xs[0]] + rest) + DropEmpty(ys);
      }
    }
  }

  /** Joining two non-empty lists puts one comma between their joins. */
  lemma {:induction false} JoinAppend(xs: seq<string>, ys: seq<string>)
    requires |xs| >= 1 && |ys| >= 1
    ensures JoinWithCommas(xs + ys) == JoinWithCommas(xs) + "," + JoinWithCommas(ys)
  {
    var zs := xs + ys;
    assert zs[0] == xs[0];
    if |xs| > 1 {
      assert zs[1..] == xs[1..] + ys;
      JoinAppend(xs[1..], ys);
    } else {
      assert zs[1..] == ys;
    }
  }

  /** A comma splits the string into the segments before it followed by the
      segments after it. */
  lemma SegmentsCommaJoin(a: string, b: string)
    ensures Segments(a + "," + b) == Segments(a) + Segments(b)
  {
    var xs := Segments(a) + Segments(b);
    JoinSegments(a);
    JoinSegments(b);
    JoinAppend(Segments(a), Segments(b));
    assert forall i :: 0 <= i < |xs| ==> ',' !in xs[i];
    SegmentsOfJoin(xs);
  }

  /** The non-empty values of `a + "," + b` are those of `a` followed by those
      of `b`, whatever empty segments either contains. */
  lemma SplitNonEmptyCommaJoin(a: string, b: string)
    ensures SplitNonEmpty(a + "," + b) == SplitNonEmpty(a) + SplitNonEmpty(b)
  {
    SegmentsCommaJoin(a, b);
    DropEmptyAppend(Segments(a), Segments(b));
  }

  /** An empty segment between two values is dropped and the order kept. */
  lemma SplitNonEmptyExample()
    ensures SplitNonEmpty("a,,b") == ["a", "b"]
  {
    SplitNonEmptyCommaJoin("", "b");
    SplitNonEmptyCommaJoin("a", ",b");
    assert "a" + "," + ",b" == "a,,b";
    assert "" + "," + "b" == ",b";
    SplitNonEmptyOfJoin(["a"]);
    SplitNonEmptyOfJoin(["b"]);
  }

  /** Every segment is empty exactly when the string is made of commas only. */
  lemma {:induction false} SegmentsAllEmpty(s: string)
    ensures (forall i :: 0 <= i < |Segments(s)| ==> Segments(s)[i] == "")
        <==> (forall i :: 0 <= i < |s| ==> s[i] == ',')
  {
    if s != [] {
      SegmentsAllEmpty(s[1..]);
      var rest := Segments(s[1..]);
      if s[0] == ',' {
        assert Segments(s) == [""] + rest;
        assert forall i :: 0 <= i < |rest| ==> rest[i] == Segments(s)[i + 1];
        assert forall i :: 1 <= i < |s| ==> s[i] == s[1..][i - 1];
      } else {
        assert Segments(s)[0] != "";
      }
    }
  }

  /** The empty-list case of a comma-separated filter: nothing is left exactly
      when the parameter is empty or consists of commas only. */
  lemma SplitNonEmptyIsEmptyIff(s: string)
    ensures SplitNonEmpty(s) == [] <==> (forall i :: 0 <= i < |s| ==> s[i] == ',')
  {
    var segs := Segments(s);
    SegmentsAllEmpty(s);
    if SplitNonEmpty(s) == [] {
      forall i | 0 <= i < |segs| ensures segs[i] == "" {
        assert segs[i] in segs;
      }
    } else {
      var x := SplitNonEmpty(s)[0];
      assert x in DropEmpty(segs);
      var i :| 0 <= i < |segs| && segs[i] == x;
    }
  }

  // ---------------------------------------------------------------------------
  // substring search (the keyword filter)

  /** `pat` occurs somewhere in `text`. */
  predicate Contains(text: string, pat: string) {
    pat <= text || (text != [] && Contains(text[1..], pat))
  }

  /** `pat` occurs in `text` starting at position `i`. */
  predicate OccursAt(text: string, pat: string, i: int) {
    0 <= i <= |text| - |pat| && text[i..i + |pat|] == pat
  }

  /** `Contains` means an occurrence at some position. */
  lemma {:induction false} ContainsIff(text: string, pat: string)
    ensures Contains(text, pat) <==> exists i :: OccursAt(text, pat, i)
  {
    if pat <= text {
      assert OccursAt(text, pat, 0);
    }
    if text != [] {
      ContainsIff(text[1..], pat);
      if Contains(text[1..], pat) {
        var i :| OccursAt(text[1..], pat, i);
        assert text[i + 1..i + 1 + |pat|] == text[1..][i..i + |pat|];
        assert OccursAt(text, pat, i + 1);
      }
      if i :| OccursAt(text, pat, i) {
        if i == 0 {
          assert pat <= text;
        } else {
          assert text[1..][i - 1..i - 1 + |pat|] == text[i..i + |pat|];
          assert OccursAt(text[1..], pat, i - 1);
        }
      }
    } else {
      if i :| OccursAt(text, pat, i) {
        assert pat == [];
      }
    }
  }

  /** A case-insensitive literal substring match (the keyword `regex(kw, "i")`). */
  predicate ContainsIgnoreCase(text: string, pat: string) {
    Contains(ToLower(text), ToLower(pat))
  }

  // ---------------------------------------------------------------------------
  // binary string order (the store's sort order on strings)

  /** `a` sorts strictly before `b`, comparing characters by code, a proper prefix first. */
  predicate LexLess(a: string, b: string) {
    if a == [] then b != []
    else b != [] && (a[0] < b[0] || (a[0] == b[0] && LexLess(a[1..], b[1..])))
  }

  lemma {:induction false} LexIrreflexive(a: string)
    ensures !LexLess(a, a)
  {
    if a != [] {
      LexIrreflexive(a[1..]);
    }
  }

  lemma {:induction false} LexTransitive(a: string, b: string, c: string)
    requires LexLess(a, b) && LexLess(b, c)
    ensures LexLess(a, c)
  {
    if a != [] && a[0] == b[0] && b[0] == c[0] {
      LexTransitive(a[1..], b[1..], c[1..]);
    }
  }

  lemma {:induction false} LexTotal(a: string, b: string)
    requires a != b
    ensures LexLess(a, b) || LexLess(b, a)
  {
    if a != [] && b != [] && a[0] == b[0] {
      assert a == [a[0]] + a[1..] && b == [b[0]] + b[1..];
      LexTotal(a[1..], b[1..]);
    }
  }

  lemma LexAsymmetric(a: string, b: string)
    requires LexLess(a, b)
    ensures !LexLess(b, a)
  {
    if LexLess(b, a) {
      LexTransitive(a, b, a);
      LexIrreflexive(a);
    }
  }
}
