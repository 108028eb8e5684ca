/**
 * The string operations of Python that the engine relies on, written out:
 * `sep.join(items)`, `s.replace(old, new)`, `f"{n}"` for a natural number,
 * `str.split` on a single character, and the `name` and `parent.name` of a
 * POSIX `pathlib.Path`.
 */
module Text {

  /** Python's `sep.join(items)`. */
  function Join(sep: string, items: seq<string>): string
  {
    if |items| == 0 then ""
    else if |items| == 1 then items[0]
    else items[0] + sep + Join(sep, items[1..])
  }

  /** Two items are joined by one separator. */
  lemma JoinPair(sep: string, a: string, b: string)
    ensures Join(sep, [a, b]) == a + sep + b
  {
    assert [a, b][1..] == [b];
  }

  /** Joining one more item adds the separator and the item at the end. */
  lemma {:induction false} JoinAppend(sep: string, items: seq<string>, item: string)
    ensures Join(sep, items + [item]) == if items == [] then item else Join(sep, items) + sep + item
  {
    if |items| >= 2 {
      assert (items + [item])[1..] == items[1..] + [item];
      JoinAppend(sep, items[1..], item);
    } else if |items| == 1 {
      assert (items + [item])[1..] == [item];
    }
  }

  // ---------------------------------------------------------------------
  // Substrings and str.replace
  // ---------------------------------------------------------------------

  predicate StartsWith(s: string, prefix: string)
  {
    |prefix| <= |s| && s[..|prefix|] == prefix
  }

  /** `pat` occurs in `s` starting at index `i`. */
  predicate OccursAt(s: string, pat: string, i: int)
  {
    0 <= i <= |s| - |pat| && s[i..i + |pat|] == pat
  }

  /** `pat in s` for strings: some window of `s` equals `pat`. */
  predicate Contains(s: string, pat: string)
  {
    exists i :: 0 <= i <= |s| - |pat| && OccursAt(s, pat, i)
  }

  /**
   * Python's `s.replace(pat, repl)` for a non-empty `pat`: scanning left to
   * right, every non-overlapping occurrence of `pat` is replaced by `repl`.
   */
  function Replace(s: string, pat: string, repl: string): string
    requires |pat| > 0
    decreases |s|
  {
    if |s| < |pat| then s
    else if StartsWith(s, pat) then repl + Replace(s[|pat|..], pat, repl)
    else [s[0]] + Replace(s[1..], pat, repl)
  }

  /** A string that does not contain `pat` is left as it is. */
  lemma {:induction false} ReplaceAbsent(s: string, pat: string, repl: string)
    requires |pat| > 0 && !Contains(s, pat)
    ensures Replace(s, pat, repl) == s
    decreases |s|
  {
    if |s| >= |pat| {
      assert s[0..|pat|] == s[..|pat|];
      assert !OccursAt(s, pat, 0);
      AbsentFromTail(s, pat);
      ReplaceAbsent(s[1..], pat, repl);
    }
  }

  /** A string without `pat` has no `pat` in its tail either. */
  lemma AbsentFromTail(s: string, pat: string)
    requires |s| > 0 && !Contains(s, pat)
    ensures !Contains(s[1..], pat)
  {
    var t := s[1..];
    forall i | 0 <= i <= |t| - |pat|
      ensures !OccursAt(t, pat, i)
    {
      assert t[i..i + |pat|] == s[i + 1..i + 1 + |pat|];
      assert !OccursAt(s, pat, i + 1);
    }
  }

  /** `Contains(s, pat)` fails as soon as one character of `pat` is missing from `s`. */
  lemma MissingCharNotContained(s: string, pat: string, c: char)
    requires c in pat && c !in s
    ensures !Contains(s, pat)
  {
    var k :| 0 <= k < |pat| && pat[k] == c;
    forall i | 0 <= i <= |s| - |pat|
      ensures !OccursAt(s, pat, i)
    {
      assert s[i..i + |pat|][k] == s[i + k];
      assert s[i + k] in s;
    }
  }

  /**
   * A pattern with no proper border: no proper suffix of it is also a prefix,
   * so two occurrences can never overlap.
   */
  predicate Unbordered(pat: string)
  {
    forall k :: 0 < k < |pat| ==> pat[k..] != pat[..|pat| - k]
  }

  /**
   * An unbordered marker that `x` does not contain cannot start at the front
   * of `x + marker + tail` when `x` is not empty: a start inside `x` would be
   * either an occurrence in `x` or an overlap of the marker with itself.
   */
  lemma NoStartBeforeMarker(x: string, marker: string, tail: string)
    requires x != [] && Unbordered(marker) && !Contains(x, marker)
    ensures !StartsWith(x + marker + tail, marker)
  {
    var s := x + marker + tail;
    if |x| >= |marker| {
      assert s[..|marker|] == x[0..|marker|];
      assert !OccursAt(x, marker, 0);
    } else {
      var k := |x|;
      assert s[..|marker|][k..] == marker[..|marker| - k];
      assert marker[k..] != marker[..|marker| - k];
    }
  }

  /**
   * Removing an unbordered marker from `x + marker + tail`, where neither `x`
   * nor `tail` contains it, leaves exactly `x + tail`.
   */
  lemma {:induction false} RemoveMarker(x: string, marker: string, tail: string)
    requires |marker| > 0 && Unbordered(marker)
    requires !Contains(x, marker) && !Contains(tail, marker)
    ensures Replace(x + marker + tail, marker, "") == x + tail
    decreases |x|
  {
    var s := x + marker + tail;
    if x == [] {
      assert s == marker + tail;
      assert s[..|marker|] == marker;
      assert s[|marker|..] == tail;
      ReplaceAbsent(tail, marker, "");
    } else {
      NoStartBeforeMarker(x, marker, tail);
      assert s[1..] == x[1..] + marker + tail;
      AbsentFromTail(x, marker);
      RemoveMarker(x[1..], marker, tail);
      assert x + tail == [x[0]] + (x[1..] + tail);
    }
  }

  // ---------------------------------------------------------------------
  // Decimal rendering of natural numbers (Python's f"{n}")
  // ---------------------------------------------------------------------

  predicate IsDigit(c: char)
  {
    '0' <= c <= '9'
  }

  function DigitChar(d: nat): (c: char)
    requires d < 10
    ensures IsDigit(c)
  {
    (('0' as int) + d) as char
  }

  function DigitValue(c: char): (d: nat)
    requires IsDigit(c)
    ensures d < 10
  {
    (c as int) - ('0' as int)
  }

  /** `f"{n}"`: the decimal digits of `n`, most significant first, no leading zero. */
  function NatToString(n: nat): (r: string)
    ensures |r| > 0
    ensures forall i :: 0 <= i < |r| ==> IsDigit(r[i])
    ensures r[0] == '0' <==> n == 0
    decreases n
  {
    if n < 10 then [DigitChar(n)]
    else NatToString(n / 10) + [DigitChar(n % 10)]
  }

  /** The value of a string of decimal digits. */
  function ParseDecimal(s: string): nat
    requires forall i :: 0 <= i < |s| ==> IsDigit(s[i])
  {
    if s == [] then 0
    else ParseDecimal(s[..|s| - 1]) * 10 + DigitValue(s[|s| - 1])
  }

  /** Rendering a number in decimal loses nothing: reading it back gives the number. */
  lemma {:induction false} NatToStringRoundTrip(n: nat)
    ensures ParseDecimal(NatToString(n)) == n
    decreases n
  {
    var r := NatToString(n);
    if n >= 10 {
      assert r[..|r| - 1] == NatToString(n / 10);
      NatToStringRoundTrip(n / 10);
    }
  }

  // ---------------------------------------------------------------------
  // Splitting and POSIX path names
  // ---------------------------------------------------------------------

  /** Python's `s.split(sep)` for a single-character separator. */
  function SplitOn(s: string, sep: char): (parts: seq<string>)
    ensures |parts| > 0
    ensures forall i, j :: 0 <= i < |parts| && 0 <= j < |parts[i]| ==> parts[i][j] != sep
    decreases |s|
  {
    if s == [] then [""]
    else
      var init := SplitOn(s[..|s| - 1], sep);
      var c := s[|s| - 1];
      if c == sep then init + [""]
      else init[..|init| - 1] + [init[|init| - 1] + [c]]
  }

  /** Joining the pieces of a split with the separator gives back the string. */
  lemma {:induction false} SplitJoinRoundTrip(s: string, sep: char)
    ensures Join([sep], SplitOn(s, sep)) == s
    decreases |s|
  {
    if s != [] {
      var s' := s[..|s| - 1];
      SplitJoinRoundTrip(s', sep);
      SplitJoinStep(s', s[|s| - 1], sep);
      assert s == s' + [s[|s| - 1]];
    }
  }

  /** The round trip extends by one character: a separator starts a new piece, another character extends the last. */
  lemma SplitJoinStep(t: string, c: char, sep: char)
    requires Join([sep], SplitOn(t, sep)) == t
    ensures Join([sep], SplitOn(t + [c], sep)) == t + [c]
  {
    var init := SplitOn(t, sep);
    SplitOnLast(t + [c], sep);
    assert (t + [c])[..|t|] == t;
    if c == sep {
      JoinAppend([sep], init, "");
    } else {
      JoinExtendLast([sep], init, c);
    }
  }

  /** The split of a non-empty string, from the split of all but its last character. */
  lemma SplitOnLast(s: string, sep: char)
    requires s != []
    ensures var init := SplitOn(s[..|s| - 1], sep);
      var c := s[|s| - 1];
      SplitOn(s, sep) == if c == sep then init + [""] else init[..|init| - 1] + [init[|init| - 1] + [c]]
  {
  }

  /** Extending the last item by one character extends the joined string by it. */
  lemma JoinExtendLast(sep: string, items: seq<string>, c: char)
    requires items != []
    ensures Join(sep, items[..|items| - 1] + [items[|items| - 1] + [c]]) == Join(sep, items) + [c]
  {
    var front := items[..|items| - 1];
    var last := items[|items| - 1];
    assert items == front + [last];
    JoinAppend(sep, front, last);
    JoinAppend(sep, front, last + [c]);
  }

  /** Appending a separator and a separator-free piece adds exactly that piece. */
  lemma {:induction false} SplitAppend(dir: string, sep: char, name: string)
    requires forall j :: 0 <= j < |name| ==> name[j] != sep
    ensures SplitOn(dir + [sep] + name, sep) == SplitOn(dir, sep) + [name]
    decreases |name|
  {
    var s := dir + [sep] + name;
    if name == [] {
      assert s[..|s| - 1] == dir;
    } else {
      var name' := name[..|name| - 1];
      assert s[..|s| - 1] == dir + [sep] + name';
      SplitAppend(dir, sep, name');
      assert name == name' + [name[|name| - 1]];
    }
  }

  /** The components `pathlib` keeps: empty components and "." are dropped. */
  function PathParts(p: string): seq<string>
  {
    KeptParts(SplitOn(p, '/'))
  }

  function KeptParts(parts: seq<string>): seq<string>
  {
    if parts == [] then []
    else
      var init := KeptParts(parts[..|parts| - 1]);
      var last := parts[|parts| - 1];
      if last == "" || last == "." then init else init + [last]
  }

  /** A single path component as `pathlib` keeps it. */
  predicate IsPlainName(name: string)
  {
    name != "" && name != "." && forall j :: 0 <= j < |name| ==> name[j] != '/'
  }

  /** `Path(p).name`: the last component, or "" for a root or an empty path. */
  function PathName(p: string): string
  {
    var parts := PathParts(p);
    if parts == [] then "" else parts[|parts| - 1]
  }

  /** `Path(p).parent.name`: the last component but one, or "". */
  function ParentName(p: string): string
  {
    var parts := PathParts(p);
    if |parts| < 2 then "" else parts[|parts| - 2]
  }

  /**
   * For `dir / name` with a plain `name`: the path's name is `name` and its
   * parent's name is the name of `dir`.
   */
  lemma PathOfChild(dir: string, name: string)
    requires IsPlainName(name)
    ensures PathName(dir + "/" + name) == name
    ensures ParentName(dir + "/" + name) == PathName(dir)
  {
    var parts := SplitOn(dir + "/" + name, '/');
    SplitAppend(dir, '/', name);
    assert parts[..|parts| - 1] == SplitOn(dir, '/');
    assert PathParts(dir + "/" + name) == PathParts(dir) + [name];
  }

  /** A string without the separator splits into itself alone. */
  lemma {:induction false} SplitWithoutSep(s: string, sep: char)
    requires forall j :: 0 <= j < |s| ==> s[j] != sep
    ensures SplitOn(s, sep) == [s]
    decreases |s|
  {
    if s != [] {
      var s' := s[..|s| - 1];
      SplitWithoutSep(s', sep);
      assert s == s' + [s[|s| - 1]];
    }
  }

  /** A plain name is its own `Path(name).name`. */
  lemma PlainPathName(name: string)
    requires IsPlainName(name)
    ensures PathName(name) == name
  {
    SplitWithoutSep(name, '/');
    assert [name][..0] == [];
  }

  /** `str(Path(dir) / name)` for a directory that `Path.walk` yields. */
  function JoinPath(dir: string, name: string): string
  {
    if dir == "" || dir == "." then name
    else if dir[|dir| - 1] == '/' then dir + name
    else dir + "/" + name
  }

  /** The name of a walked file's path is the file's name. */
  lemma JoinPathName(dir: string, name: string)
    requires IsPlainName(name)
    ensures PathName(JoinPath(dir, name)) == name
  {
    if dir == "" || dir == "." {
      PlainPathName(name);
    } else if dir[|dir| - 1] == '/' {
      var d := dir[..|dir| - 1];
      assert dir + name == d + "/" + name;
      PathOfChild(d, name);
    } else {
      PathOfChild(dir, name);
    }
  }
}

