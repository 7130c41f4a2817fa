/** The export path shared by download and share: the mapping from a filter's
    utility class name to the CSS filter string given to the temporary canvas,
    and the name of the exported file. The strings follow the JavaScript
    operations the app uses: `String.replace` with a string pattern (first
    occurrence only), `split(' ')`, `map` and `join(' ')`. */
module ExportFilter {
  import opened Types
  import opened Constants

  /** `pat` occurs in `s` starting at index `j`. */
  predicate OccursAt(s: string, pat: string, j: nat)
  {
    j + |pat| <= |s| && s[j..j + |pat|] == pat
  }

  /** The first index at or after `from` where `pat` occurs in `s`. */
  function FindFrom(s: string, pat: string, from: nat): (r: Option<nat>)
    decreases |s| - from
    ensures r.Some? ==> from <= r.value && OccursAt(s, pat, r.value)
    ensures r.Some? ==> forall j :: from <= j < r.value ==> !OccursAt(s, pat, j)
    ensures r.None? ==> forall j :: from <= j ==> !OccursAt(s, pat, j)
  {
    if from + |pat| > |s| then None
    else if s[from..from + |pat|] == pat then Some(from)
    else FindFrom(s, pat, from + 1)
  }

  /** `s.indexOf(pat)`: the first occurrence of `pat` in `s`, if any. */
  function IndexOf(s: string, pat: string): (r: Option<nat>)
    ensures r.Some? ==> OccursAt(s, pat, r.value) && forall j :: 0 <= j < r.value ==> !OccursAt(s, pat, j)
    ensures r.None? ==> forall j :: 0 <= j ==> !OccursAt(s, pat, j)
  {
    FindFrom(s, pat, 0)
  }

  /** `s.replace(pat, rep)` with a string pattern: only the first occurrence is replaced. */
  function ReplaceFirst(s: string, pat: string, rep: string): (r: string)
    ensures IndexOf(s, pat).None? ==> r == s
    ensures IndexOf(s, pat).Some? ==>
              var i := IndexOf(s, pat).value;
              |r| == |s| - |pat| + |rep| &&
              r[..i] == s[..i] && r[i..i + |rep|] == rep && r[i + |rep|..] == s[i + |pat|..]
  {
    match IndexOf(s, pat)
    case None => s
    case Some(i) => s[..i] + rep + s[i + |pat|..]
  }

  /** `s.split(sep)` with a one-character separator: the pieces between separators, empty ones included. */
  function Split(s: string, sep: char): (parts: seq<string>)
    ensures |parts| >= 1
    ensures forall k :: 0 <= k < |parts| ==> sep !in parts[k]
  {
    if s == [] then [""]
    else
      var rest := Split(s[1..], sep);
      if s[0] == sep then [""] + rest
      else [[s[0]] + rest[0]] + rest[1..]
  }

  /** `parts.join(sep)`. */
  function Join(parts: seq<string>, sep: char): string
  {
    if |parts| == 0 then ""
    else if |parts| == 1 then parts[0]
    else parts[0] + [sep] + Join(parts[1..], sep)
  }

  lemma {:induction false} JoinCons(head: string, tail: seq<string>, sep: char)
    requires |tail| >= 1
    ensures Join([head] + tail, sep) == head + [sep] + Join(tail, sep)
  {
    assert ([head] + tail)[1..] == tail;
  }

  /** Joining the pieces of a split gives back the original string. */
  lemma {:induction false} JoinSplit(s: string, sep: char)
    ensures Join(Split(s, sep), sep) == s
  {
    if s != [] {
      var rest := Split(s[1..], sep);
      JoinSplit(s[1..], sep);
      if s[0] == sep {
        JoinCons("", rest, sep);
        assert s == [sep] + s[1..];
      } else {
        var first := [s[0]] + rest[0];
        if |rest| == 1 {
          assert Join([first], sep) == first;
          assert s == [s[0]] + s[1..];
        } else {
          JoinCons(first, rest[1..], sep);
          JoinCons(rest[0], rest[1..], sep);
          assert [rest[0]] + rest[1..] == rest;
          assert s == [s[0]] + s[1..];
        }
      }
    }
  }

  /** A string without the separator splits into itself alone. */
  lemma {:induction false} SplitNoSep(a: string, sep: char)
    requires sep !in a
    ensures Split(a, sep) == [a]
  {
    if a != [] {
      SplitNoSep(a[1..], sep);
      assert [a[0]] + a[1..] == a;
    }
  }

  /** Splitting `a + sep + rest`, where `a` holds no separator, yields `a` and then the pieces of `rest`. */
  lemma {:induction false} SplitAfterPiece(a: string, rest: string, sep: char)
    requires sep !in a
    ensures Split(a + [sep] + rest, sep) == [a] + Split(rest, sep)
  {
    if a == [] {
      assert a + [sep] + rest == [sep] + rest;
      assert ([sep] + rest)[1..] == rest;
    } else {
      var s := a + [sep] + rest;
      assert s[1..] == a[1..] + [sep] + rest;
      SplitAfterPiece(a[1..], rest, sep);
      assert [a[0]] + a[1..] == a;
    }
  }

  /** Splitting a join of separator-free pieces gives back the pieces. */
  lemma {:induction false} SplitJoin(parts: seq<string>, sep: char)
    requires |parts| >= 1
    requires forall k :: 0 <= k < |parts| ==> sep !in parts[k]
    ensures Split(Join(parts, sep), sep) == parts
  {
    if |parts| == 1 {
      SplitNoSep(parts[0], sep);
    } else {
      SplitJoin(parts[1..], sep);
      SplitAfterPiece(parts[0], Join(parts[1..], sep), sep);
      assert [parts[0]] + parts[1..] == parts;
    }
  }

  /** The CSS filter function that stands for one utility-class token; unknown tokens pass through. */
  function MapToken(t: string): string
  {
    if t == "grayscale" then "grayscale(1)"
    else if t == "sepia" then "sepia(1)"
    else if t == "vintage" then "sepia(0.6) contrast(1.1) brightness(0.9) saturate(1.2)"
    else t
  }

  predicate KnownToken(t: string)
  {
    t == "grayscale" || t == "sepia" || t == "vintage"
  }

  /** The mapping rewrites exactly the three known tokens and leaves every other token as it is. */
  lemma MapTokenFixesExactlyUnknown(t: string)
    ensures MapToken(t) == t <==> !KnownToken(t)
  {
  }

  function MapTokens(ts: seq<string>): (r: seq<string>)
    ensures |r| == |ts|
    ensures forall k :: 0 <= k < |ts| ==> r[k] == MapToken(ts[k])
  {
    if ts == [] then [] else [MapToken(ts[0])] + MapTokens(ts[1..])
  }

  /** The CSS filter string computed from a non-empty class name. */
  function CssFilterValue(className: string): string
  {
    Join(MapTokens(Split(ReplaceFirst(className, "filter ", ""), ' ')), ' ')
  }

  /** The filter the export canvas is given: none for an empty class name
      (the context keeps its default "none"), the mapped string otherwise. */
  function ClassFilter(className: string): Option<string>
  {
    if className == "" then None else Some(CssFilterValue(className))
  }

  /** The filter applied when exporting under `selected`: the class of its
      FILTER_OPTIONS entry, mapped; no filter when the lookup fails or the class is empty. */
  function ExportFilterFor(selected: FilterType): Option<string>
  {
    match FindFilter(FILTER_OPTIONS, selected)
    case None => None
    case Some(option) => ClassFilter(option.className)
  }

  /** A class made of "filter " and one known or unknown token maps to that token's CSS. */
  lemma OneTokenClass(t: string)
    requires ' ' !in t
    ensures CssFilterValue("filter " + t) == MapToken(t)
  {
    var c := "filter " + t;
    assert OccursAt(c, "filter ", 0);
    assert ReplaceFirst(c, "filter ", "") == t;
    SplitNoSep(t, ' ');
  }

  /** FILTER_OPTIONS' lookup finds the entry at `k` for that entry's own id. */
  lemma {:induction false} LookupFinds(k: nat)
    requires k < |FILTER_OPTIONS|
    ensures FindFilter(FILTER_OPTIONS, FILTER_OPTIONS[k].id) == Some(FILTER_OPTIONS[k])
  {
    var opts := FILTER_OPTIONS;
    var id := opts[k].id;
    assert forall j :: 0 <= j < |opts| && opts[j].id == id ==> j == k;
    var r := FindFilter(opts, id);
    var j :| 0 <= j < |opts| && opts[j] == r.value && forall i :: 0 <= i < j ==> opts[i].id != id;
  }

  /** Exporting under a filter applies the mapped class of that filter's own entry. */
  lemma ExportFilterOfEntry(k: nat)
    requires k < |FILTER_OPTIONS|
    ensures ExportFilterFor(FILTER_OPTIONS[k].id) == ClassFilter(FILTER_OPTIONS[k].className)
  {
    LookupFinds(k);
  }

  /** Original exports with no filter at all. */
  lemma OriginalExportsUnfiltered()
    ensures ExportFilterFor(Original) == None
  {
    ExportFilterOfEntry(0);
  }

  /** The three non-empty class names of the filter table and what they map to. */
  lemma GrayscaleClass()
    ensures ClassFilter("filter grayscale") == Some("grayscale(1)")
  {
    assert "filter grayscale" == "filter " + "grayscale";
    OneTokenClass("grayscale");
  }

  lemma SepiaClass()
    ensures ClassFilter("filter sepia") == Some("sepia(1)")
  {
    assert "filter sepia" == "filter " + "sepia";
    OneTokenClass("sepia");
  }

  lemma VintageClass()
    ensures ClassFilter("filter vintage") == Some("sepia(0.6) contrast(1.1) brightness(0.9) saturate(1.2)")
  {
    assert "filter vintage" == "filter " + "vintage";
    OneTokenClass("vintage");
  }

  /** Black-and-white, sepia and vintage export as "grayscale(1)", "sepia(1)" and the vintage composite. */
  lemma FilteredExports()
    ensures ExportFilterFor(BlackAndWhite) == Some("grayscale(1)")
    ensures ExportFilterFor(Sepia) == Some("sepia(1)")
    ensures ExportFilterFor(Vintage) == Some("sepia(0.6) contrast(1.1) brightness(0.9) saturate(1.2)")
  {
    ExportFilterOfEntry(1);
    GrayscaleClass();
    ExportFilterOfEntry(2);
    SepiaClass();
    ExportFilterOfEntry(3);
    VintageClass();
  }

  /** The value of the export canvas's `filter` when it is drawn on under
      `selected`: the mapped class when there is one, and otherwise the
      context's default. */
  function ExportCss(selected: FilterType): string
  {
    match ExportFilterFor(selected)
    case None => "none"
    case Some(v) => v
  }

  /** The export canvas's filter is "none" for Original and the mapped class
      for the other three effects. */
  lemma ExportCssValues(selected: FilterType)
    ensures selected == Original ==> ExportCss(selected) == "none"
    ensures selected == BlackAndWhite ==> ExportCss(selected) == "grayscale(1)"
    ensures selected == Sepia ==> ExportCss(selected) == "sepia(1)"
    ensures selected == Vintage ==> ExportCss(selected) == "sepia(0.6) contrast(1.1) brightness(0.9) saturate(1.2)"
  {
    FilteredExports();
    OriginalExportsUnfiltered();
  }

  /** The export filter as the handlers compute it: the mapped class of the
      selected effect's entry when there is one with a non-empty class, and
      otherwise the untouched default. */
  lemma ExportCssLookup(selected: FilterType)
    ensures var e := FindFilter(FILTER_OPTIONS, selected);
            ExportCss(selected) == if e.Some? && e.value.className != "" then CssFilterValue(e.value.className) else "none"
  {
  }

  /** When no token is one of the three known names, the class (with its first
      "filter " removed) is passed through unchanged. */
  lemma UnknownTokensPassThrough(className: string)
    requires className != ""
    requires forall t :: t in Split(ReplaceFirst(className, "filter ", ""), ' ') ==> !KnownToken(t)
    ensures ClassFilter(className) == Some(ReplaceFirst(className, "filter ", ""))
  {
    var rest := ReplaceFirst(className, "filter ", "");
    var parts := Split(rest, ' ');
    forall k | 0 <= k < |parts| ensures MapTokens(parts)[k] == parts[k] {
      assert parts[k] in parts;
    }
    assert MapTokens(parts) == parts;
    JoinSplit(rest, ' ');
  }

  /** The decimal digits of `n`, as `String(n)` writes a non-negative integer. */
  function Decimal(n: nat): (r: string)
    ensures |r| >= 1
    ensures forall k :: 0 <= k < |r| ==> '0' <= r[k] <= '9'
    ensures r[0] == '0' <==> n == 0
    ensures |r| == 1 || r[0] != '0'
  {
    if n < 10 then [Digit(n)] else Decimal(n / 10) + [Digit(n % 10)]
  }

  function Digit(d: nat): (c: char)
    requires d < 10
    ensures '0' <= c <= '9'
    ensures c == '0' <==> d == 0
  {
    "0123456789"[d]
  }

  /** The value of a string of decimal digits. */
  function DecimalValue(s: string): nat
    requires forall k :: 0 <= k < |s| ==> '0' <= s[k] <= '9'
  {
    if s == [] then 0 else DecimalValue(s[..|s| - 1]) * 10 + (s[|s| - 1] as int - '0' as int)
  }

  /** Reading back the digits gives the number: distinct timestamps give distinct names. */
  lemma {:induction false} DecimalRoundTrip(n: nat)
    ensures DecimalValue(Decimal(n)) == n
  {
    var r := Decimal(n);
    if n >= 10 {
      DecimalRoundTrip(n / 10);
      assert r[..|r| - 1] == Decimal(n / 10);
    }
  }

  /** The exported file name: a fixed prefix, the millisecond timestamp and ".jpg". */
  function FileName(now: nat): (name: string)
    ensures |name| > 21 && name[..17] == "photobooth_image_" && name[|name| - 4..] == ".jpg"
    ensures forall k :: 17 <= k < |name| - 4 ==> '0' <= name[k] <= '9'
    ensures DecimalValue(name[17..|name| - 4]) == now
    ensures |name| == 22 || name[17] != '0'
  {
    var digits := Decimal(now);
    DecimalRoundTrip(now);
    var name := "photobooth_image_" + digits + ".jpg";
    assert name[17..|name| - 4] == digits;
    assert name[17] == digits[0];
    name
  }
}
