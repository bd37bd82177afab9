/** The string searches the launcher relies on: `std::string::find` for the
    response markers, `std::wstring::find_last_of` for the file name, and the
    bounded copy of a C string into the key buffer. */
module Strings {
  import opened Wrappers

  /** `pat` occurs in `s` starting at index `i`. */
  predicate OccursAt<T(==)>(s: seq<T>, pat: seq<T>, i: nat) {
    i + |pat| <= |s| && s[i..i + |pat|] == pat
  }

  /** Every character of a pattern that occurs in a text is in the text;
      so a pattern with a character the text lacks occurs nowhere in it. */
  lemma OccurrenceChars<T>(s: seq<T>, pat: seq<T>, k: nat, i: nat)
    requires k < |pat|
    ensures OccursAt(s, pat, i) ==> pat[k] in s
  {
    if OccursAt(s, pat, i) {
      assert s[i + k] == s[i..i + |pat|][k];
    }
  }

  /** `s.find(pat)`: the first index at which `pat` occurs, or None for
      `npos`. */
  function Find<T(==)>(s: seq<T>, pat: seq<T>): (r: Option<nat>)
    ensures r.Some? ==> OccursAt(s, pat, r.value)
    ensures r.Some? ==> forall j :: 0 <= j < r.value ==> !OccursAt(s, pat, j)
    ensures r.None? <==> forall j :: 0 <= j ==> !OccursAt(s, pat, j)
  {
    FindFrom(s, pat, 0)
  }

  function FindFrom<T(==)>(s: seq<T>, pat: seq<T>, k: nat): (r: Option<nat>)
    requires k <= |s| + 1
    ensures r.Some? ==> k <= r.value && OccursAt(s, pat, r.value)
    ensures r.Some? ==> forall j :: k <= j < r.value ==> !OccursAt(s, pat, j)
    ensures r.None? <==> forall j :: k <= j ==> !OccursAt(s, pat, j)
    decreases |s| + 1 - k
  {
    if k + |pat| > |s| then None
    else if s[k..k + |pat|] == pat then assert OccursAt(s, pat, k); Some(k)
    else FindFrom(s, pat, k + 1)
  }

  predicate Contains<T(==)>(s: seq<T>, pat: seq<T>) {
    exists i :: 0 <= i <= |s| && OccursAt(s, pat, i)
  }

  /** `s.find(pat) != npos` holds exactly when `pat` is a substring. */
  lemma FindDecidesContains<T>(s: seq<T>, pat: seq<T>)
    ensures Find(s, pat).Some? <==> Contains(s, pat)
  {
  }

  /** A substring is found again when text is appended after it or put
      before it. */
  lemma {:induction false} ContainsExtends<T>(s: seq<T>, pat: seq<T>, before: seq<T>, after: seq<T>)
    requires Contains(s, pat)
    ensures Contains(before + s + after, pat)
  {
    var i :| 0 <= i <= |s| && OccursAt(s, pat, i);
    var t := before + s + after;
    assert t[|before| + i..|before| + i + |pat|] == s[i..i + |pat|];
    assert OccursAt(t, pat, |before| + i);
  }

  /** `\\` or `/`: the characters `find_last_of(L"\\/")` looks for. */
  predicate IsSeparator(c: char) {
    c == '\\' || c == '/'
  }

  function LastSeparator(path: string): (r: Option<nat>)
    ensures r.None? <==> forall i :: 0 <= i < |path| ==> !IsSeparator(path[i])
    ensures r.Some? ==> r.value < |path| && IsSeparator(path[r.value])
    ensures r.Some? ==> forall j :: r.value < j < |path| ==> !IsSeparator(path[j])
  {
    if path == [] then None
    else if IsSeparator(path[|path| - 1]) then Some(|path| - 1)
    else LastSeparator(path[..|path| - 1])
  }

  /** `GetFileNameFromPath` (main.cpp:281-285): the part after the last
      separator, or the whole path when it has none. That is the longest
      separator-free suffix of the path. */
  function FileName(path: string): (name: string)
    ensures |name| <= |path| && path[|path| - |name|..] == name
    ensures forall i :: 0 <= i < |name| ==> !IsSeparator(name[i])
    ensures |name| < |path| ==> IsSeparator(path[|path| - |name| - 1])
  {
    match LastSeparator(path)
    case None => path
    case Some(pos) => path[pos + 1..]
  }

  /** A path without separators is its own file name. */
  lemma FileNameWithoutSeparator(path: string)
    requires forall i :: 0 <= i < |path| ==> !IsSeparator(path[i])
    ensures FileName(path) == path
  {
  }

  /** Whatever precedes the last separator does not affect the file name. */
  lemma FileNameIgnoresDirectory(dir: string, sep: char, name: string)
    requires IsSeparator(sep)
    requires forall i :: 0 <= i < |name| ==> !IsSeparator(name[i])
    ensures FileName(dir + [sep] + name) == name
  {
    var path := dir + [sep] + name;
    assert path[|path| - |name|..] == name;
    assert path[|path| - |name| - 1] == sep;
  }

  /** The bytes of a C string: everything before the first NUL. */
  function CString(b: Bytes): (r: Bytes)
    ensures |r| <= |b| && b[..|r|] == r
    ensures forall i :: 0 <= i < |r| ==> r[i] != '\0'
    ensures |r| < |b| ==> b[|r|] == '\0'
  {
    if b == [] || b[0] == '\0' then []
    else [b[0]] + CString(b[1..])
  }

  /** `strncpy_s(dest, src, count)` into a buffer larger than `count`: at
      most `count` bytes of the C string `src`. */
  function BoundedCopy(src: Bytes, count: nat): (r: Bytes)
    ensures |r| <= count
    ensures forall i :: 0 <= i < |r| ==> r[i] != '\0'
    ensures |r| <= |CString(src)| && CString(src)[..|r|] == r
    ensures |r| == count || r == CString(src)
  {
    var c := CString(src);
    if |c| <= count then c else c[..count]
  }
}
