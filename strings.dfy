/** The Python string and path primitives the pipeline is built from:
    `str.split(sep)`, `sep.join(pieces)`, `str(n)` for a natural number,
    `str.strip()`, and the POSIX `os.path` helpers `splitext`, `basename`
    and `join`. Each is a function over `seq<char>`; the lemmas state the
    facts the rest of the model leans on. */
module Strings {

  /** `sep.join(pieces)`: the pieces with `sep` between neighbours. */
  function Join(pieces: seq<string>, sep: string): string
  {
    if pieces == [] then ""
    else if |pieces| == 1 then pieces[0]
    else pieces[0] + sep + Join(pieces[1..], sep)
  }

  /** `sep` occurs in `s` starting at index `i`. */
  predicate OccursAt(s: string, sep: string, i: int)
  {
    0 <= i && i + |sep| <= |s| && s[i..i + |sep|] == sep
  }

  /** `s.split(sep)` for a non-empty separator: scanning left to right,
      cut at every occurrence of `sep` that does not overlap an earlier cut.
      There is always at least one piece, and the first piece is a prefix of `s`. */
  function Split(s: string, sep: string): (r: seq<string>)
    requires sep != []
    ensures |r| >= 1
    ensures r[0] <= s
    decreases |s|
  {
    if |s| < |sep| then [s]
    else if s[..|sep|] == sep then [""] + Split(s[|sep|..], sep)
    else
      var rest := Split(s[1..], sep);
      [[s[0]] + rest[0]] + rest[1..]
  }

  /** Joining the pieces of a split with the same separator gives back the text. */
  lemma {:induction false} JoinSplit(s: string, sep: string)
    requires sep != []
    ensures Join(Split(s, sep), sep) == s
    decreases |s|
  {
    if |s| < |sep| {
    } else if s[..|sep|] == sep {
      var rest := Split(s[|sep|..], sep);
      var pieces := [""] + rest;
      assert Split(s, sep) == pieces;
      JoinSplit(s[|sep|..], sep);
      assert |pieces| > 1 && pieces[0] == "" && pieces[1..] == rest;
      assert Join(pieces, sep) == "" + sep + Join(rest, sep);
      assert s == s[..|sep|] + s[|sep|..];
    } else {
      var rest := Split(s[1..], sep);
      assert Split(s, sep) == [[s[0]] + rest[0]] + rest[1..];
      JoinSplit(s[1..], sep);
      JoinWiderHead(s[0], rest, sep);
      assert s == [s[0]] + s[1..];
    }
  }

  /** Widening the first piece by one leading character widens the join by that character. */
  lemma JoinWiderHead(c: char, pieces: seq<string>, sep: string)
    requires pieces != []
    ensures Join([[c] + pieces[0]] + pieces[1..], sep) == [c] + Join(pieces, sep)
  {
    var wider := [[c] + pieces[0]] + pieces[1..];
    if |pieces| > 1 {
      assert wider[1..] == pieces[1..];
      assert Join(wider, sep) == ([c] + pieces[0]) + sep + Join(pieces[1..], sep);
    }
  }

  /** No piece of a split still contains the separator: the split is as fine as it can be. */
  lemma {:induction false} SplitPiecesFree(s: string, sep: string)
    requires sep != []
    ensures forall k, i :: 0 <= k < |Split(s, sep)| ==> !OccursAt(Split(s, sep)[k], sep, i)
    decreases |s|
  {
    var r := Split(s, sep);
    if |s| < |sep| {
    } else if s[..|sep|] == sep {
      SplitPiecesFree(s[|sep|..], sep);
      var rest := Split(s[|sep|..], sep);
      assert r == [""] + rest;
      forall k, i | 0 <= k < |r| ensures !OccursAt(r[k], sep, i) {
        if k > 0 { assert r[k] == rest[k - 1]; }
      }
    } else {
      SplitPiecesFree(s[1..], sep);
      var rest := Split(s[1..], sep);
      var head := [s[0]] + rest[0];
      assert r == [head] + rest[1..];
      assert head <= s;
      forall k, i | 0 <= k < |r| ensures !OccursAt(r[k], sep, i) {
        if k > 0 {
          assert r[k] == rest[k];
        } else if i == 0 {
          if |sep| <= |head| {
            assert head[..|sep|] == s[..|sep|];
          }
        } else if 0 < i && i + |sep| <= |head| {
          assert head[i..i + |sep|] == rest[0][i - 1..i - 1 + |sep|];
          assert !OccursAt(rest[0], sep, i - 1);
        }
      }
    }
  }

  /** The character for a decimal digit. */
  function DigitChar(d: nat): (c: char)
    requires d < 10
    ensures '0' <= c <= '9'
  {
    ('0' as int + d) as char
  }

  /** `str(n)`: the decimal rendering of a natural number, without leading zeros. */
  function NatToString(n: nat): (r: string)
    ensures 1 <= |r|
    ensures |r| == 1 <==> n < 10
    ensures forall i :: 0 <= i < |r| ==> '0' <= r[i] <= '9'
  {
    if n < 10 then [DigitChar(n)] else NatToString(n / 10) + [DigitChar(n % 10)]
  }

  /** Different numbers have different renderings. */
  lemma {:induction false} NatToStringInjective(a: nat, b: nat)
    requires NatToString(a) == NatToString(b)
    ensures a == b
    decreases a
  {
    if a < 10 || b < 10 {
      assert |NatToString(a)| == 1 && |NatToString(b)| == 1;
      assert DigitChar(a) == DigitChar(b);
    } else {
      var sa, sb := NatToString(a), NatToString(b);
      assert sa[..|sa| - 1] == NatToString(a / 10);
      assert sb[..|sb| - 1] == NatToString(b / 10);
      NatToStringInjective(a / 10, b / 10);
      assert DigitChar(a % 10) == sa[|sa| - 1] == sb[|sb| - 1] == DigitChar(b % 10);
    }
  }

  /** `s.rfind(c)`: the last index holding `c`, or -1. */
  function LastIndexOf(s: string, c: char): (r: int)
    ensures -1 <= r < |s|
    ensures r >= 0 ==> s[r] == c
    ensures forall j :: r < j < |s| ==> s[j] != c
  {
    if |s| == 0 then -1
    else if s[|s| - 1] == c then |s| - 1
    else LastIndexOf(s[..|s| - 1], c)
  }

  /** `os.path.basename(p)`: everything after the last slash. */
  function Basename(p: string): (r: string)
    ensures |r| <= |p| && r == p[|p| - |r|..] && '/' !in r
  {
    p[LastIndexOf(p, '/') + 1..]
  }

  /** `os.path.splitext(p)`: the extension runs from the last dot of the last
      path component, unless every character before that dot in the component
      is itself a dot (a leading-dot name such as ".profile" has no extension). */
  function SplitExt(p: string): (r: (string, string))
    ensures r.0 + r.1 == p
    ensures r.1 == [] || (r.1[0] == '.' && '/' !in r.1 && '.' !in r.1[1..])
  {
    var slash := LastIndexOf(p, '/');
    var dot := LastIndexOf(p, '.');
    if dot > slash && exists k :: slash < k < dot && p[k] != '.' then
      (p[..dot], p[dot..])
    else
      (p, "")
  }

  /** `os.path.join(dir, name)` for two components. */
  function JoinPath(dir: string, name: string): (r: string)
    ensures name != [] && name[0] != '/' && dir != [] && dir[|dir| - 1] != '/' ==> r == dir + "/" + name
  {
    if name != [] && name[0] == '/' then name
    else if dir == [] || dir[|dir| - 1] == '/' then dir + name
    else dir + "/" + name
  }

  /** The characters Python's `str.isspace` accepts and `str.strip()` removes. */
  predicate IsSpace(c: char)
  {
    || c == ' ' || '\t' <= c <= '\r' || '\U{1c}' <= c <= '\U{1f}'
    || c == '\U{85}' || c == '\U{a0}' || c == '\U{1680}'
    || '\U{2000}' <= c <= '\U{200a}' || c == '\U{2028}' || c == '\U{2029}'
    || c == '\U{202f}' || c == '\U{205f}' || c == '\U{3000}'
  }

  /** `s.lstrip()` */
  function StripLeft(s: string): (r: string)
    ensures |r| <= |s| && r == s[|s| - |r|..]
    ensures r == [] || !IsSpace(r[0])
  {
    if s != [] && IsSpace(s[0]) then StripLeft(s[1..]) else s
  }

  /** `s.rstrip()` */
  function StripRight(s: string): (r: string)
    ensures r <= s
    ensures r == [] || !IsSpace(r[|r| - 1])
  {
    if s != [] && IsSpace(s[|s| - 1]) then StripRight(s[..|s| - 1]) else s
  }

  /** `s.strip()`: a slice of `s` that neither starts nor ends with whitespace. */
  function Strip(s: string): (r: string)
    ensures |r| <= |s|
    ensures exists i :: OccursAt(s, r, i)
    ensures r == [] || (!IsSpace(r[0]) && !IsSpace(r[|r| - 1]))
  {
    var left := StripLeft(s);
    StripRightKeepsFirst(left);
    var r := StripRight(left);
    PrefixOfSuffix(s, |s| - |left|, r);
    r
  }

  /** A prefix of the suffix of `s` from `k` occurs in `s` at `k`. */
  lemma PrefixOfSuffix(s: string, k: nat, r: string)
    requires k <= |s| && r <= s[k..]
    ensures OccursAt(s, r, k)
  {
    assert s[k..k + |r|] == s[k..][..|r|];
  }

  /** A string strips to nothing exactly when every character in it is whitespace. */
  lemma {:induction false} StripEmptyIffBlank(s: string)
    ensures Strip(s) == [] <==> forall i :: 0 <= i < |s| ==> IsSpace(s[i])
    decreases |s|
  {
    if s != [] && IsSpace(s[0]) {
      StripEmptyIffBlank(s[1..]);
      assert forall i :: 1 <= i < |s| ==> s[i] == s[1..][i - 1];
    } else if s != [] {
      StripRightKeepsFirst(s);
    }
  }

  /** `rstrip` never removes a leading non-space character. */
  lemma {:induction false} StripRightKeepsFirst(s: string)
    ensures s != [] && !IsSpace(s[0]) ==> StripRight(s) != [] && StripRight(s)[0] == s[0]
    decreases |s|
  {
    if s != [] && IsSpace(s[|s| - 1]) {
      StripRightKeepsFirst(s[..|s| - 1]);
    }
  }
}
