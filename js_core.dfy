/// The JavaScript built-ins the backend relies on: values read from a parsed
/// JSON body, truthiness, the `\s` character class and `String.prototype.trim`,
/// `indexOf`/`lastIndexOf`/`includes`, `replace` with a string pattern or with a global
/// regular expression and its `$` replacement patterns, `split` and `join`, decimal rendering
/// and `parseInt(s, 10)`.
/// Strings are sequences of Dafny `char`s, which are Unicode scalar values: for text in the
/// Basic Multilingual Plane one `char` is one JavaScript code unit.
module JsCore {

  datatype Option<+T> = None | Some(value: T)

  /** The outcome of an operation that can throw: the error is the thrown message. */
  datatype Result<+T> = Ok(value: T) | Err(error: string)

  /** A number produced by `parseInt`: either NaN or an integer. */
  datatype JsNumber = NaN | Num(n: int)

  /** A value read from a parsed JSON request body (`undefined` when the key is absent). */
  datatype JsValue =
    | Undefined
    | Null
    | Bool(b: bool)
    | Number(num: JsNumber)
    | Str(s: string)
    | Object

  /** JavaScript truthiness: `undefined`, `null`, `false`, `0`, `NaN` and `""` are falsy. */
  predicate Truthy(v: JsValue) {
    match v
    case Undefined => false
    case Null => false
    case Bool(b) => b
    case Number(num) => num.Num? && num.n != 0
    case Str(s) => s != ""
    case Object => true
  }

  // ---------------------------------------------------------------------------
  // Environment variables (`process.env`)

  /** `process.env[name]`: undefined when the variable is not set. */
  function EnvGet(env: map<string, string>, name: string): (r: Option<string>)
    ensures r.Some? <==> name in env
    ensures r.Some? ==> r.value == env[name]
  {
    if name in env then Some(env[name]) else None
  }

  /** A variable is truthy when it is set to a non-empty string. */
  predicate EnvSet(env: map<string, string>, name: string) {
    name in env && env[name] != ""
  }

  /** `process.env[name] || fallback`. */
  function EnvOr(env: map<string, string>, name: string, fallback: string): (r: string)
    ensures EnvSet(env, name) ==> r == env[name]
    ensures !EnvSet(env, name) ==> r == fallback
  {
    if EnvSet(env, name) then env[name] else fallback
  }

  // ---------------------------------------------------------------------------
  // Characters

  predicate IsLineTerminator(c: char) {
    c == '\n' || c == '\r' || c as int == 0x2028 || c as int == 0x2029
  }

  /** The `\s` class of regular expressions, which is also the set `trim` removes. */
  predicate IsWhiteSpace(c: char) {
    var n := c as int;
    n == 9 || n == 11 || n == 12 || n == 32 || n == 0xA0 || n == 0x1680
    || (0x2000 <= n <= 0x200A) || n == 0x202F || n == 0x205F || n == 0x3000
    || n == 0xFEFF || IsLineTerminator(c)
  }

  predicate IsAsciiLetter(c: char) {
    ('a' <= c <= 'z') || ('A' <= c <= 'Z')
  }

  predicate IsDigit(c: char) {
    48 <= c as int <= 57
  }

  /** Every character is whitespace (so `trim()` yields the empty string). */
  predicate IsBlank(s: string) {
    forall i :: 0 <= i < |s| ==> IsWhiteSpace(s[i])
  }

  // ---------------------------------------------------------------------------
  // trim

  function TrimStart(s: string): (r: string)
    ensures |r| <= |s| && r == s[|s| - |r|..]
    ensures r == [] || !IsWhiteSpace(r[0])
    ensures forall i :: 0 <= i < |s| - |r| ==> IsWhiteSpace(s[i])
  {
    if s != [] && IsWhiteSpace(s[0]) then TrimStart(s[1..]) else s
  }

  /** The first index at or after `k` that does not hold whitespace: where `\s*` stops. */
  function SkipWhiteSpace(s: string, k: nat): (r: nat)
    requires k <= |s|
    ensures k <= r <= |s|
    ensures r == |s| || !IsWhiteSpace(s[r])
    decreases |s| - k
  {
    if k < |s| && IsWhiteSpace(s[k]) then SkipWhiteSpace(s, k + 1) else k
  }

  /** Everything `\s*` skips is whitespace. */
  lemma {:induction false} SkipWhiteSpaceSkipsOnlyWhiteSpace(s: string, k: nat)
    requires k <= |s|
    ensures forall j :: k <= j < SkipWhiteSpace(s, k) ==> IsWhiteSpace(s[j])
    decreases |s| - k
  {
    if k < |s| && IsWhiteSpace(s[k]) {
      SkipWhiteSpaceSkipsOnlyWhiteSpace(s, k + 1);
    }
  }

  function TrimEnd(s: string): (r: string)
    ensures |r| <= |s| && r == s[..|r|]
    ensures r == [] || !IsWhiteSpace(r[|r| - 1])
    ensures forall i :: |r| <= i < |s| ==> IsWhiteSpace(s[i])
  {
    if s != [] && IsWhiteSpace(s[|s| - 1]) then TrimEnd(s[..|s| - 1]) else s
  }

  /** `String.prototype.trim`. */
  function Trim(s: string): (r: string)
    ensures |r| <= |s|
    ensures r == [] || (!IsWhiteSpace(r[0]) && !IsWhiteSpace(r[|r| - 1]))
    ensures r == [] <==> IsBlank(s)
  {
    var t := TrimStart(s);
    var r := TrimEnd(t);
    assert r != [] ==> r[0] == t[0];
    assert r == [] ==> t == [];
    r
  }

  /** Leading whitespace is only ever taken from the front of a non-blank string. */
  lemma {:induction false} TrimStartAppend(s: string, t: string)
    requires !IsBlank(s)
    ensures TrimStart(s + t) == TrimStart(s) + t
    decreases |s|
  {
    if IsWhiteSpace(s[0]) {
      var i :| 0 <= i < |s| && !IsWhiteSpace(s[i]);
      assert s[1..][i - 1] == s[i];
      assert (s + t)[1..] == s[1..] + t;
      TrimStartAppend(s[1..], t);
    }
  }

  /** A whitespace character at the end does not change what `trim` gives. */
  lemma TrimAppendWhiteSpace(s: string, c: char)
    requires IsWhiteSpace(c)
    ensures Trim(s + [c]) == Trim(s)
  {
    if IsBlank(s) {
      assert IsBlank(s + [c]) by {
        assert forall i :: 0 <= i < |s| ==> (s + [c])[i] == s[i];
      }
    } else {
      TrimStartAppend(s, [c]);
      TrimEndAppendWhiteSpace(TrimStart(s), c);
    }
  }

  lemma TrimEndAppendWhiteSpace(u: string, c: char)
    requires IsWhiteSpace(c)
    ensures TrimEnd(u + [c]) == TrimEnd(u)
  {
    assert (u + [c])[..|u|] == u;
  }

  /** The trimmed string is the slice of `s` that starts after the leading whitespace. */
  lemma TrimIsSlice(s: string)
    ensures var a := |s| - |TrimStart(s)|;
            a + |Trim(s)| <= |s| && forall i :: 0 <= i < |Trim(s)| ==> Trim(s)[i] == s[a + i]
  {
    var t := TrimStart(s);
    var r := TrimEnd(t);
    var a := |s| - |t|;
    forall i | 0 <= i < |r|
      ensures r[i] == s[a + i]
    {
      assert r[i] == t[i];
      assert t[i] == s[a..][i];
    }
  }

  /** Trimming cannot create an occurrence of a string. */
  lemma TrimKeepsAbsence(s: string, t: string)
    requires !Contains(s, t)
    ensures !Contains(Trim(s), t)
  {
    var u := TrimStart(s);
    PrefixKeepsAbsence(s[|s| - |u|..], |TrimEnd(u)|, t) by {
      SuffixKeepsAbsence(s, |s| - |u|, t);
    }
  }

  lemma SuffixKeepsAbsence(s: string, d: nat, t: string)
    requires d <= |s| && !Contains(s, t)
    ensures !Contains(s[d..], t)
  {
    forall q | 0 <= q
      ensures !OccursAt(s[d..], t, q)
    {
      if q + |t| <= |s| - d {
        assert s[d..][q..q + |t|] == s[d + q..d + q + |t|];
        assert !OccursAt(s, t, d + q);
      }
    }
  }

  lemma PrefixKeepsAbsence(s: string, e: nat, t: string)
    requires e <= |s| && !Contains(s, t)
    ensures !Contains(s[..e], t)
  {
    forall q | 0 <= q
      ensures !OccursAt(s[..e], t, q)
    {
      if q + |t| <= e {
        assert s[..e][q..q + |t|] == s[q..q + |t|];
        assert !OccursAt(s, t, q);
      }
    }
  }

  /** Trimming twice is trimming once. */
  lemma TrimIdempotent(s: string)
    ensures Trim(Trim(s)) == Trim(s)
  {
    var r := Trim(s);
    assert TrimStart(r) == r;
    assert TrimEnd(r) == r;
  }

  /** A string that neither starts nor ends with whitespace is its own trim. */
  lemma TrimUntrimmed(s: string)
    requires s != [] && !IsWhiteSpace(s[0]) && !IsWhiteSpace(s[|s| - 1])
    ensures Trim(s) == s
  {
    assert TrimStart(s) == s;
  }

  // ---------------------------------------------------------------------------
  // Lower-casing (ASCII letters; see README)

  function ToLowerChar(c: char): (r: char)
    ensures !('A' <= r <= 'Z')
  {
    if 'A' <= c <= 'Z' then (c as int + 32) as char else c
  }

  function ToLower(s: string): (r: string)
    ensures |r| == |s|
    ensures forall i :: 0 <= i < |s| ==> r[i] == ToLowerChar(s[i])
  {
    seq(|s|, i requires 0 <= i < |s| => ToLowerChar(s[i]))
  }

  /** Lower-casing twice is lower-casing once. */
  lemma ToLowerIdempotent(s: string)
    ensures ToLower(ToLower(s)) == ToLower(s)
  {
  }

  // ---------------------------------------------------------------------------
  // Searching

  predicate StartsWith(s: string, p: string) {
    |p| <= |s| && s[..|p|] == p
  }

  /** `t` occurs in `s` at index `i`. */
  predicate OccursAt(s: string, t: string, i: int) {
    0 <= i && i + |t| <= |s| && s[i..i + |t|] == t
  }

  /** An occurrence in a suffix is one in the whole string. */
  lemma SuffixOccurrence(s: string, t: string, d: nat, k: int)
    requires d <= |s| && OccursAt(s[d..], t, k)
    ensures OccursAt(s, t, d + k)
  {
    assert s[d..][k..k + |t|] == s[d + k..d + k + |t|];
  }

  /** `s.indexOf(t)`: the first index where `t` occurs, or -1. */
  function IndexOf(s: string, t: string): (r: int)
    ensures -1 <= r <= |s|
    ensures r >= 0 ==> OccursAt(s, t, r)
    ensures forall j :: 0 <= j && (r < 0 || j < r) ==> !OccursAt(s, t, j)
    decreases |s|
  {
    if StartsWith(s, t) then 0
    else if s == [] then -1
    else
      var k := IndexOf(s[1..], t);
      OccursShift(s, t);
      if k < 0 then -1 else k + 1
  }

  lemma OccursShift(s: string, t: string)
    requires s != []
    ensures forall j :: 1 <= j ==> (OccursAt(s, t, j) <==> OccursAt(s[1..], t, j - 1))
  {
    forall j | 1 <= j
      ensures OccursAt(s, t, j) <==> OccursAt(s[1..], t, j - 1)
    {
      if j + |t| <= |s| {
        assert s[j..j + |t|] == s[1..][j - 1..j - 1 + |t|];
      }
    }
  }

  /** `s.includes(t)`. */
  predicate Contains(s: string, t: string) {
    IndexOf(s, t) >= 0
  }

  lemma ContainsAt(s: string, t: string, i: int)
    requires OccursAt(s, t, i)
    ensures Contains(s, t)
  {
  }

  /** Nothing before the first occurrence of `t` contains `t`. */
  lemma NotBeforeFirst(s: string, t: string, j: int)
    requires t != [] && 0 <= j <= |s|
    requires IndexOf(s, t) < 0 || j <= IndexOf(s, t)
    ensures !Contains(s[..j], t)
  {
    forall q | 0 <= q
      ensures !OccursAt(s[..j], t, q)
    {
      if q + |t| <= j {
        assert s[..j][q..q + |t|] == s[q..q + |t|];
        assert !OccursAt(s, t, q);
      }
    }
  }

  /** No proper suffix of `t` is also a prefix of it, so two occurrences of `t` never
      overlap. */
  predicate Unbordered(t: string) {
    forall k :: 1 <= k < |t| ==> t[k..] != t[..|t| - k]
  }

  /** An unbordered pattern that opens `w` and does not occur in `a` is first found where
      `w` starts. */
  lemma IndexOfUnbordered(a: string, w: string, t: string)
    requires StartsWith(w, t) && !Contains(a, t) && Unbordered(t)
    ensures IndexOf(a + w, t) == |a|
  {
    OccursAtJoin(a, w, t);
    NoOccurrenceInFront(a, w, t);
    IndexOfFirst(a + w, t, |a|);
  }

  lemma OccursAtJoin(a: string, w: string, t: string)
    requires StartsWith(w, t)
    ensures OccursAt(a + w, t, |a|)
  {
    assert (a + w)[|a|..|a| + |t|] == w[..|t|];
  }

  lemma NoOccurrenceInFront(a: string, w: string, t: string)
    requires StartsWith(w, t) && !Contains(a, t) && Unbordered(t)
    ensures forall q :: 0 <= q < |a| ==> !OccursAt(a + w, t, q)
  {
    forall q | 0 <= q < |a|
      ensures !OccursAt(a + w, t, q)
    {
      NoOccurrenceBefore(a, w, t, q);
    }
  }

  /** An occurrence with none before it is the one `indexOf` finds. */
  lemma IndexOfFirst(s: string, t: string, i: int)
    requires OccursAt(s, t, i) && forall q :: 0 <= q < i ==> !OccursAt(s, t, q)
    ensures IndexOf(s, t) == i
  {
  }

  lemma NoOccurrenceBefore(a: string, w: string, t: string, q: int)
    requires StartsWith(w, t) && !Contains(a, t) && Unbordered(t) && 0 <= q < |a|
    ensures !OccursAt(a + w, t, q)
  {
    var s := a + w;
    if q + |t| <= |a| {
      assert s[q..q + |t|] == a[q..q + |t|];
      assert !OccursAt(a, t, q);
    } else if q + |t| <= |s| {
      var k := |a| - q;
      assert s[q..q + |t|][k..] == w[..|t| - k];
      assert w[..|t| - k] == t[..|t| - k];
      assert t[k..] != t[..|t| - k];
    }
  }

  /** `s.lastIndexOf(c)` for a one-character search string. */
  function LastIndexOf(s: string, c: char): (r: int)
    ensures -1 <= r < |s|
    ensures r >= 0 ==> s[r] == c
    ensures forall j :: r < j < |s| ==> s[j] != c
  {
    if s == [] then -1
    else if s[|s| - 1] == c then |s| - 1
    else LastIndexOf(s[..|s| - 1], c)
  }

  // ---------------------------------------------------------------------------
  // replace, split, join

  /** `s.replace(p, r)` with a string pattern: only the first occurrence. */
  function ReplaceFirst(s: string, p: string, r: string): string {
    var i := IndexOf(s, p);
    if i < 0 then s else s[..i] + r + s[i + |p|..]
  }

  /** A global replace of the literal `p`, scanning left to right without overlaps. */
  function ReplaceAll(s: string, p: string, r: string): string
    requires p != []
    decreases |s|
  {
    if s == [] then []
    else if StartsWith(s, p) then r + ReplaceAll(s[|p|..], p, r)
    else [s[0]] + ReplaceAll(s[1..], p, r)
  }

  /** `s.split(p)` for a non-empty literal separator: scanning left to right, each occurrence
      of `p` ends the current piece and is skipped. */
  function SplitOn(s: string, p: string): (parts: seq<string>)
    requires p != []
    ensures |parts| >= 1
    decreases |s|
  {
    if s == [] then [""]
    else if StartsWith(s, p) then [""] + SplitOn(s[|p|..], p)
    else
      var tail := SplitOn(s[1..], p);
      [[s[0]] + tail[0]] + tail[1..]
  }

  /** `parts.join(sep)`. */
  function Join(parts: seq<string>, sep: string): string {
    if |parts| == 0 then ""
    else if |parts| == 1 then parts[0]
    else parts[0] + sep + Join(parts[1..], sep)
  }

  /** The first piece of a split is a prefix of the string. */
  lemma {:induction false} SplitOnFirstIsPrefix(s: string, p: string)
    requires p != []
    ensures var first := SplitOn(s, p)[0];
            |first| <= |s| && first == s[..|first|]
    decreases |s|
  {
    if s != [] && !StartsWith(s, p) {
      SplitOnFirstIsPrefix(s[1..], p);
      var first := SplitOn(s[1..], p)[0];
      assert [s[0]] + first == s[..|first| + 1];
    }
  }

  /** A character in front of a piece without `p` adds no occurrence, when the string they are
      a prefix of does not start with `p`. */
  lemma PrependKeepsAbsence(s: string, p: string, first: string)
    requires |first| < |s| && first == s[1..|first| + 1]
    requires !StartsWith(s, p) && !Contains(first, p)
    ensures !Contains([s[0]] + first, p)
  {
    var w := [s[0]] + first;
    assert w == s[..|w|];
    forall q | 0 <= q
      ensures !OccursAt(w, p, q)
    {
      if q + |p| <= |w| {
        if q == 0 {
          assert w[..|p|] == s[..|p|];
        } else {
          assert w[q..q + |p|] == first[q - 1..q - 1 + |p|];
          assert !OccursAt(first, p, q - 1);
        }
      }
    }
  }

  /** A string without the separator splits into itself alone. */
  lemma {:induction false} SplitOnAbsent(s: string, p: string)
    requires p != [] && !Contains(s, p)
    ensures SplitOn(s, p) == [s]
    decreases |s|
  {
    if s != [] {
      assert !OccursAt(s, p, 0);
      assert !StartsWith(s, p) by {
        if |p| <= |s| {
          assert s[..|p|] == s[0..|p|];
        }
      }
      SuffixKeepsAbsence(s, 1, p);
      SplitOnAbsent(s[1..], p);
      assert [s[0]] + s[1..] == s;
    }
  }

  /** No piece of a split contains the separator. */
  lemma {:induction false} SplitOnPiecesFree(s: string, p: string)
    requires p != []
    ensures forall k :: 0 <= k < |SplitOn(s, p)| ==> !Contains(SplitOn(s, p)[k], p)
    decreases |s|
  {
    if s != [] {
      if StartsWith(s, p) {
        SplitOnPiecesFree(s[|p|..], p);
      } else {
        var tail := SplitOn(s[1..], p);
        SplitOnPiecesFree(s[1..], p);
        SplitOnFirstIsPrefix(s[1..], p);
        assert tail[0] == s[1..|tail[0]| + 1];
        PrependKeepsAbsence(s, p, tail[0]);
      }
    }
  }

  /** Joining after an empty first piece starts with the separator. */
  lemma JoinAfterEmpty(rest: seq<string>, sep: string)
    requires |rest| >= 1
    ensures Join([""] + rest, sep) == sep + Join(rest, sep)
  {
    assert ([""] + rest)[1..] == rest;
  }

  /** Joining after a character put in front of the first piece puts it in front. */
  lemma JoinAfterPrepend(c: char, tail: seq<string>, sep: string)
    requires |tail| >= 1
    ensures Join([[c] + tail[0]] + tail[1..], sep) == [c] + Join(tail, sep)
  {
    var parts := [[c] + tail[0]] + tail[1..];
    if |tail| > 1 {
      assert parts[1..] == tail[1..];
    }
  }

  /** A global replace is a split on the pattern followed by a join with the replacement. */
  lemma {:induction false} ReplaceAllIsSplitJoin(s: string, p: string, r: string)
    requires p != []
    ensures ReplaceAll(s, p, r) == Join(SplitOn(s, p), r)
    decreases |s|
  {
    if s == [] {
    } else if StartsWith(s, p) {
      ReplaceAllIsSplitJoin(s[|p|..], p, r);
      JoinAfterEmpty(SplitOn(s[|p|..], p), r);
    } else {
      ReplaceAllIsSplitJoin(s[1..], p, r);
      JoinAfterPrepend(s[0], SplitOn(s[1..], p), r);
    }
  }

  /** Replacing a pattern by itself changes nothing. */
  lemma {:induction false} ReplaceAllBySelf(s: string, p: string)
    requires p != []
    ensures ReplaceAll(s, p, p) == s
    decreases |s|
  {
    if s == [] {
    } else if StartsWith(s, p) {
      ReplaceAllBySelf(s[|p|..], p);
      assert s == p + s[|p|..];
    } else {
      ReplaceAllBySelf(s[1..], p);
      assert s == [s[0]] + s[1..];
    }
  }

  /** Joining the pieces of a split with the separator gives the string back. */
  lemma SplitJoinRoundTrip(s: string, p: string)
    requires p != []
    ensures Join(SplitOn(s, p), p) == s
  {
    ReplaceAllIsSplitJoin(s, p, p);
    ReplaceAllBySelf(s, p);
  }

  /** A replace of a pattern that does not occur leaves the string unchanged. */
  lemma ReplaceAllAbsent(s: string, p: string, r: string)
    requires p != [] && !Contains(s, p)
    ensures ReplaceAll(s, p, r) == s
  {
    ReplaceAllIsSplitJoin(s, p, r);
    SplitOnAbsent(s, p);
  }

  /** The replacement string of a regular-expression replace, expanded for one match:
      "$$" is a dollar sign, "$&" the matched text, "$`" the text before the match and
      "$'" the text after it; every other character, a lone or unknown "$" included, is
      copied (a pattern without capturing groups has no "$1" or "$<name>" to fill). */
  function ExpandReplacement(r: string, matched: string, before: string, after: string): string
    decreases |r|
  {
    if r == [] then []
    else if r[0] == '$' && |r| >= 2 && r[1] == '$' then "$" + ExpandReplacement(r[2..], matched, before, after)
    else if r[0] == '$' && |r| >= 2 && r[1] == '&' then matched + ExpandReplacement(r[2..], matched, before, after)
    else if r[0] == '$' && |r| >= 2 && r[1] == '`' then before + ExpandReplacement(r[2..], matched, before, after)
    else if r[0] == '$' && |r| >= 2 && r[1] == '\'' then after + ExpandReplacement(r[2..], matched, before, after)
    else [r[0]] + ExpandReplacement(r[1..], matched, before, after)
  }

  /** A replacement without '$' is inserted as it is. */
  lemma {:induction false} ExpandPlain(r: string, matched: string, before: string, after: string)
    requires '$' !in r
    ensures ExpandReplacement(r, matched, before, after) == r
    decreases |r|
  {
    if r != [] {
      assert r[0] != '$';
      ExpandPlain(r[1..], matched, before, after);
      assert r == [r[0]] + r[1..];
    }
  }

  /** `s.replace(/p/g, r)` for a pattern that matches the literal `p`, scanning `s` from
      index `i`: each match, left to right and without overlaps, becomes `r` expanded
      against the whole of `s`. */
  function RegExpReplaceFrom(s: string, p: string, r: string, i: nat): string
    requires p != [] && i <= |s|
    decreases |s| - i
  {
    if i == |s| then []
    else if OccursAt(s, p, i) then
      ExpandReplacement(r, p, s[..i], s[i + |p|..]) + RegExpReplaceFrom(s, p, r, i + |p|)
    else [s[i]] + RegExpReplaceFrom(s, p, r, i + 1)
  }

  /** `s.replace(/p/g, r)` where the pattern matches exactly the literal `p`. */
  function RegExpReplaceAll(s: string, p: string, r: string): string
    requires p != []
  {
    RegExpReplaceFrom(s, p, r, 0)
  }

  /** Without '$' in the replacement, the regular-expression replace is the literal one. */
  lemma RegExpReplaceAllLiteral(s: string, p: string, r: string)
    requires p != [] && '$' !in r
    ensures RegExpReplaceAll(s, p, r) == ReplaceAll(s, p, r)
  {
    RegExpReplaceFromLiteral(s, p, r, 0);
    assert s[0..] == s;
  }

  lemma {:induction false} RegExpReplaceFromLiteral(s: string, p: string, r: string, i: nat)
    requires p != [] && '$' !in r && i <= |s|
    ensures RegExpReplaceFrom(s, p, r, i) == ReplaceAll(s[i..], p, r)
    decreases |s| - i
  {
    var t := s[i..];
    if i < |s| {
      OccursAtIsPrefixOfTail(s, p, i);
      if OccursAt(s, p, i) {
        ExpandPlain(r, p, s[..i], s[i + |p|..]);
        assert t[|p|..] == s[i + |p|..];
        RegExpReplaceFromLiteral(s, p, r, i + |p|);
        assert RegExpReplaceFrom(s, p, r, i) == r + RegExpReplaceFrom(s, p, r, i + |p|);
        assert ReplaceAll(t, p, r) == r + ReplaceAll(t[|p|..], p, r);
      } else {
        assert t[1..] == s[i + 1..] && t[0] == s[i];
        RegExpReplaceFromLiteral(s, p, r, i + 1);
        assert RegExpReplaceFrom(s, p, r, i) == [s[i]] + RegExpReplaceFrom(s, p, r, i + 1);
        assert ReplaceAll(t, p, r) == [t[0]] + ReplaceAll(t[1..], p, r);
      }
    }
  }

  /** A match at index `i` is the pattern opening the suffix from `i`. */
  lemma OccursAtIsPrefixOfTail(s: string, p: string, i: nat)
    requires i <= |s|
    ensures OccursAt(s, p, i) <==> StartsWith(s[i..], p)
  {
    if i + |p| <= |s| {
      assert s[i..][..|p|] == s[i..i + |p|];
    }
  }

  /** Where the pattern does not occur, the regular-expression replace changes nothing,
      whatever the replacement. */
  lemma {:induction false} RegExpReplaceFromAbsent(s: string, p: string, r: string, i: nat)
    requires p != [] && i <= |s|
    requires forall q :: i <= q ==> !OccursAt(s, p, q)
    ensures RegExpReplaceFrom(s, p, r, i) == s[i..]
    decreases |s| - i
  {
    if i < |s| {
      RegExpReplaceFromAbsent(s, p, r, i + 1);
      assert s[i..] == [s[i]] + s[i + 1..];
    }
  }

  lemma RegExpReplaceAllAbsent(s: string, p: string, r: string)
    requires p != [] && !Contains(s, p)
    ensures RegExpReplaceAll(s, p, r) == s
  {
    RegExpReplaceFromAbsent(s, p, r, 0);
    assert s[0..] == s;
  }

  // ---------------------------------------------------------------------------
  // Splitting on runs of separator characters (`split(/\s+/)`, `split(/[.!?]+/)`)

  /** The index of the first character satisfying `isSep`, or `|s|`. */
  function FirstIndexWhere(s: string, isSep: char -> bool): (i: nat)
    ensures i <= |s|
    ensures i < |s| ==> isSep(s[i])
    ensures forall j :: 0 <= j < i ==> !isSep(s[j])
  {
    if s == [] then 0 else if isSep(s[0]) then 0 else 1 + FirstIndexWhere(s[1..], isSep)
  }

  /** Drops the leading run of separator characters. */
  function SkipRun(s: string, isSep: char -> bool): (r: string)
    ensures |r| <= |s| && r == s[|s| - |r|..]
    ensures s != [] && isSep(s[0]) ==> |r| < |s|
    ensures r == [] || !isSep(r[0])
  {
    if s != [] && isSep(s[0]) then SkipRun(s[1..], isSep) else s
  }

  /** `s.split(re)` where `re` matches maximal runs of `isSep` characters. */
  function SplitRuns(s: string, isSep: char -> bool): (parts: seq<string>)
    ensures |parts| >= 1
    ensures forall k, j :: 0 <= k < |parts| && 0 <= j < |parts[k]| ==> !isSep(parts[k][j])
    decreases |s|
  {
    var i := FirstIndexWhere(s, isSep);
    if i == |s| then [s]
    else [s[..i]] + SplitRuns(SkipRun(s[i..], isSep), isSep)
  }

  /** `parts.filter(p => p.length > 0)`. */
  function NonEmpty(parts: seq<string>): (r: seq<string>)
    ensures |r| <= |parts|
    ensures forall k :: 0 <= k < |r| ==> r[k] != [] && r[k] in parts
    ensures forall k :: 0 <= k < |parts| && parts[k] != [] ==> parts[k] in r
  {
    if parts == [] then []
    else if parts[0] == [] then NonEmpty(parts[1..])
    else [parts[0]] + NonEmpty(parts[1..])
  }

  /** `parts.map(p => p.trim())`. */
  function TrimAll(parts: seq<string>): (r: seq<string>)
    ensures |r| == |parts| && forall k :: 0 <= k < |parts| ==> r[k] == Trim(parts[k])
  {
    seq(|parts|, k requires 0 <= k < |parts| => Trim(parts[k]))
  }

  /** The pieces written one after another. */
  function Concat(parts: seq<string>): string {
    if parts == [] then [] else parts[0] + Concat(parts[1..])
  }

  /** `s` with every separator character removed: the reference for what a split keeps. */
  function Without(s: string, isSep: char -> bool): (r: string)
    ensures |r| <= |s|
    ensures forall j :: 0 <= j < |r| ==> !isSep(r[j])
  {
    if s == [] then []
    else (if isSep(s[0]) then [] else [s[0]]) + Without(s[1..], isSep)
  }

  lemma {:induction false} WithoutAppend(a: string, b: string, isSep: char -> bool)
    ensures Without(a + b, isSep) == Without(a, isSep) + Without(b, isSep)
    decreases |a|
  {
    if a != [] {
      assert (a + b)[1..] == a[1..] + b;
      WithoutAppend(a[1..], b, isSep);
    } else {
      assert a + b == b;
    }
  }

  lemma {:induction false} WithoutNoSeparator(s: string, isSep: char -> bool)
    requires forall j :: 0 <= j < |s| ==> !isSep(s[j])
    ensures Without(s, isSep) == s
    decreases |s|
  {
    if s != [] {
      WithoutNoSeparator(s[1..], isSep);
    }
  }

  lemma {:induction false} WithoutSkipRun(s: string, isSep: char -> bool)
    ensures Without(SkipRun(s, isSep), isSep) == Without(s, isSep)
    decreases |s|
  {
    if s != [] && isSep(s[0]) {
      WithoutSkipRun(s[1..], isSep);
    }
  }

  /** Splitting loses exactly the separators: the pieces, put back together, are the
      input with its separator characters removed. */
  lemma {:induction false} SplitRunsConcat(s: string, isSep: char -> bool)
    ensures Concat(SplitRuns(s, isSep)) == Without(s, isSep)
    decreases |s|
  {
    var i := FirstIndexWhere(s, isSep);
    if i == |s| {
      WithoutNoSeparator(s, isSep);
      assert Concat([s]) == s + Concat([]);
    } else {
      var rest := SkipRun(s[i..], isSep);
      var parts := SplitRuns(s, isSep);
      assert parts == [s[..i]] + SplitRuns(rest, isSep);
      calc {
        Concat(parts);
        s[..i] + Concat(SplitRuns(rest, isSep));
        { SplitRunsConcat(rest, isSep); }
        s[..i] + Without(rest, isSep);
        { WithoutSkipRun(s[i..], isSep); WithoutNoSeparator(s[..i], isSep); }
        Without(s[..i], isSep) + Without(s[i..], isSep);
        { WithoutAppend(s[..i], s[i..], isSep); assert s[..i] + s[i..] == s; }
        Without(s, isSep);
      }
    }
  }

  /** Dropping empty pieces does not change what they spell together. */
  lemma {:induction false} NonEmptyConcat(parts: seq<string>)
    ensures Concat(NonEmpty(parts)) == Concat(parts)
    decreases |parts|
  {
    if parts != [] {
      NonEmptyConcat(parts[1..]);
      if parts[0] != [] {
        assert ([parts[0]] + NonEmpty(parts[1..]))[1..] == NonEmpty(parts[1..]);
      }
    }
  }

  /** The pieces with the separator runs between them: `parts[0] + seps[0] + parts[1] + ...`. */
  function Interleave(parts: seq<string>, seps: seq<string>): string
    requires |parts| == |seps| + 1
  {
    if seps == [] then parts[0] else parts[0] + seps[0] + Interleave(parts[1..], seps[1..])
  }

  /** `parts` and `seps` describe a split: no piece holds a separator character, every run
      is a non-empty run of them, and only the first and the last piece may be empty (two
      runs around an empty piece would be one run). */
  predicate IsSplit(parts: seq<string>, seps: seq<string>, isSep: char -> bool) {
    && |parts| == |seps| + 1
    && (forall k, j :: 0 <= k < |parts| && 0 <= j < |parts[k]| ==> !isSep(parts[k][j]))
    && (forall k :: 0 < k < |parts| - 1 ==> parts[k] != [])
    && (forall k :: 0 <= k < |seps| ==> seps[k] != [])
    && (forall k, j :: 0 <= k < |seps| && 0 <= j < |seps[k]| ==> isSep(seps[k][j]))
  }

  /** A run of separators is skipped up to the next piece. */
  lemma {:induction false} SkipRunOfRun(sep: string, rest: string, isSep: char -> bool)
    requires forall j :: 0 <= j < |sep| ==> isSep(sep[j])
    requires rest == [] || !isSep(rest[0])
    ensures SkipRun(sep + rest, isSep) == rest
    decreases |sep|
  {
    if sep == [] {
      assert sep + rest == rest;
    } else {
      assert (sep + rest)[1..] == sep[1..] + rest;
      SkipRunOfRun(sep[1..], rest, isSep);
    }
  }

  /** Splitting on runs undoes interleaving: the split of pieces joined by separator runs
      gives back exactly those pieces. */
  lemma {:induction false} SplitRunsOfInterleave(parts: seq<string>, seps: seq<string>,
                                                 isSep: char -> bool)
    requires IsSplit(parts, seps, isSep)
    ensures SplitRuns(Interleave(parts, seps), isSep) == parts
    decreases |seps|
  {
    if seps == [] {
      var s := Interleave(parts, seps);
      assert FirstIndexWhere(s, isSep) == |s|;
      assert parts == [parts[0]];
    } else {
      var rest := Interleave(parts[1..], seps[1..]);
      SplitTail(parts, seps, isSep);
      SplitRunsOfPieceRun(parts[0], seps[0], rest, isSep);
      SplitRunsOfInterleave(parts[1..], seps[1..], isSep);
      assert parts == [parts[0]] + parts[1..];
    }
  }

  /** What follows the first run of a split is again a split, and opens with a piece. */
  lemma SplitTail(parts: seq<string>, seps: seq<string>, isSep: char -> bool)
    requires IsSplit(parts, seps, isSep) && seps != []
    ensures IsSplit(parts[1..], seps[1..], isSep)
    ensures var rest := Interleave(parts[1..], seps[1..]);
            rest == [] || !isSep(rest[0])
  {
    var rest := Interleave(parts[1..], seps[1..]);
    if parts[1] == [] {
      assert |parts| == 2;
    } else if |seps| > 1 {
      assert rest == parts[1] + seps[1] + Interleave(parts[2..], seps[2..]);
      assert rest[0] == parts[1][0];
    }
  }

  /** A piece, a run and a rest that opens with a piece split into the piece and the rest's
      split. */
  lemma SplitRunsOfPieceRun(p: string, sep: string, rest: string, isSep: char -> bool)
    requires forall j :: 0 <= j < |p| ==> !isSep(p[j])
    requires sep != [] && forall j :: 0 <= j < |sep| ==> isSep(sep[j])
    requires rest == [] || !isSep(rest[0])
    ensures SplitRuns(p + sep + rest, isSep) == [p] + SplitRuns(rest, isSep)
  {
    var s := p + sep + rest;
    assert s == p + (sep + rest);
    assert s[|p|] == sep[0];
    assert FirstIndexWhere(s, isSep) == |p|;
    assert s[..|p|] == p && s[|p|..] == sep + rest;
    SkipRunOfRun(sep, rest, isSep);
  }

  /** How many runs of characters outside `isSep` begin in `s`: positions holding such a
      character whose predecessor is a separator, or, at the start, when `afterSep` holds. */
  function RunStarts(s: string, isSep: char -> bool, afterSep: bool): nat
    decreases |s|
  {
    if s == [] then 0
    else (if afterSep && !isSep(s[0]) then 1 else 0) + RunStarts(s[1..], isSep, isSep(s[0]))
  }

  /** A non-empty stretch without separators at the front starts at most one run. */
  lemma {:induction false} RunStartsOfPiece(s: string, i: nat, isSep: char -> bool, afterSep: bool)
    requires 0 < i <= |s| && forall j :: 0 <= j < i ==> !isSep(s[j])
    ensures RunStarts(s, isSep, afterSep) == (if afterSep then 1 else 0) + RunStarts(s[i..], isSep, false)
    decreases i
  {
    if i == 1 {
      assert s[1..] == s[i..];
    } else {
      RunStartsOfPiece(s[1..], i - 1, isSep, false);
      assert s[1..][i - 1..] == s[i..];
    }
  }

  /** A leading run of separators starts no run: counting resumes after it. */
  lemma {:induction false} RunStartsOfRun(s: string, isSep: char -> bool, afterSep: bool)
    requires s != [] && isSep(s[0])
    ensures RunStarts(s, isSep, afterSep) == RunStarts(SkipRun(s, isSep), isSep, true)
    decreases |s|
  {
    if s[1..] != [] && isSep(s[1..][0]) {
      RunStartsOfRun(s[1..], isSep, true);
    }
  }

  /** The non-empty pieces of a split are exactly as many as the runs that begin in `s`. */
  lemma {:induction false} SplitRunsCount(s: string, isSep: char -> bool)
    ensures |NonEmpty(SplitRuns(s, isSep))| == RunStarts(s, isSep, true)
    decreases |s|
  {
    var i := FirstIndexWhere(s, isSep);
    if i == |s| {
      if s != [] {
        RunStartsOfPiece(s, i, isSep, true);
        NonEmptyCons(s, []);
      }
    } else {
      var r := SkipRun(s[i..], isSep);
      SplitRunsCount(r, isSep);
      NonEmptyCons(s[..i], SplitRuns(r, isSep));
      if i == 0 {
        assert s[i..] == s;
        RunStartsOfRun(s, isSep, true);
      } else {
        RunStartsOfPiece(s, i, isSep, true);
        RunStartsOfRun(s[i..], isSep, false);
      }
    }
  }

  /** Filtering a piece in front counts it once if it is not empty. */
  lemma NonEmptyCons(x: string, rest: seq<string>)
    ensures |NonEmpty([x] + rest)| == (if x == [] then 0 else 1) + |NonEmpty(rest)|
  {
    assert ([x] + rest)[1..] == rest;
  }

  // ---------------------------------------------------------------------------
  // Numbers

  /** The character of a decimal digit: '0' is character 48. */
  function DigitChar(d: nat): (c: char)
    requires d < 10
    ensures IsDigit(c) && c as int - 48 == d
  {
    (48 + d) as char
  }

  /** `String(n)` for a natural number. */
  function NatToString(n: nat): (r: string)
    ensures |r| >= 1
    ensures forall i :: 0 <= i < |r| ==> IsDigit(r[i])
  {
    if n < 10 then [DigitChar(n)] else NatToString(n / 10) + [DigitChar(n % 10)]
  }

  /** `String(i)` for an integer. */
  function IntToString(i: int): string {
    if i < 0 then "-" + NatToString(-i) else NatToString(i)
  }

  /** The value of a non-empty string of decimal digits. */
  function DigitsValue(d: string): nat
    requires forall i :: 0 <= i < |d| ==> IsDigit(d[i])
  {
    if d == [] then 0
    else
      assert IsDigit(d[|d| - 1]);
      10 * DigitsValue(d[..|d| - 1]) + (d[|d| - 1] as int - 48)
  }

  /** Reading back the decimal rendering of `n` gives `n`. */
  lemma {:induction false} DigitsValueOfNatToString(n: nat)
    ensures DigitsValue(NatToString(n)) == n
  {
    var s := NatToString(n);
    if n >= 10 {
      DigitsValueOfNatToString(n / 10);
      assert s[..|s| - 1] == NatToString(n / 10);
      assert s[|s| - 1] == DigitChar(n % 10);
    } else {
      assert s == [DigitChar(n)];
    }
  }

  /** The longest prefix made of decimal digits. */
  function DigitPrefix(s: string): (d: string)
    ensures |d| <= |s| && d == s[..|d|]
    ensures forall i :: 0 <= i < |d| ==> IsDigit(d[i])
    ensures |d| < |s| ==> !IsDigit(s[|d|])
  {
    if s != [] && IsDigit(s[0]) then [s[0]] + DigitPrefix(s[1..]) else []
  }

  /** `parseInt(s, 10)`: skips leading whitespace, reads an optional sign and the
      longest run of digits; NaN when there is no digit. */
  function ParseInt(s: string): (r: JsNumber)
    ensures r.NaN? <==> DigitPrefix(SignStripped(TrimStart(s))) == []
  {
    var t := TrimStart(s);
    var d := DigitPrefix(SignStripped(t));
    if d == [] then NaN
    else if t[0] == '-' then Num(0 - DigitsValue(d) as int)
    else Num(DigitsValue(d))
  }

  function SignStripped(t: string): string {
    if t != [] && (t[0] == '-' || t[0] == '+') then t[1..] else t
  }

  lemma DigitPrefixOfDigits(d: string)
    requires forall i :: 0 <= i < |d| ==> IsDigit(d[i])
    ensures DigitPrefix(d) == d
  {
    if d != [] {
      DigitPrefixOfDigits(d[1..]);
    }
  }

  /** `parseInt(String(n), 10) == n` for every natural number. */
  lemma ParseIntOfNatToString(n: nat)
    ensures ParseInt(NatToString(n)) == Num(n)
  {
    var s := NatToString(n);
    assert TrimStart(s) == s;
    assert SignStripped(s) == s;
    DigitPrefixOfDigits(s);
    DigitsValueOfNatToString(n);
  }
}
