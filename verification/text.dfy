/** The handful of Python `str` and `pathlib` operations the service relies on,
    written over `seq<char>`: substring test, `startswith`, ASCII `lower()`,
    `strip()`, single-character `replace(c, "")`, `rfind`, `Path.name`,
    `Path.suffix`, decimal formatting of naturals and parsing of digit runs. */
module Text {
  import opened Wrappers

  /** Python's `s.startswith(prefix)`. */
  predicate StartsWith(s: string, prefix: string) {
    |prefix| <= |s| && s[..|prefix|] == prefix
  }

  /** Python's `sub in s`: `sub` occurs somewhere in `s` as a contiguous run. */
  predicate Contains(s: string, sub: string)
    decreases |s|
  {
    StartsWith(s, sub) || (|s| > 0 && Contains(s[1..], sub))
  }

  /** `sub` occurs in `s` starting at index `i`. */
  ghost predicate OccursAt(s: string, sub: string, i: int) {
    0 <= i && i + |sub| <= |s| && s[i..i + |sub|] == sub
  }

  /** The recursive `Contains` agrees with the positional definition of a substring. */
  lemma {:induction false} ContainsIffOccurs(s: string, sub: string)
    ensures Contains(s, sub) <==> exists i :: OccursAt(s, sub, i)
    decreases |s|
  {
    if StartsWith(s, sub) {
      assert OccursAt(s, sub, 0);
    } else if |s| > 0 {
      ContainsIffOccurs(s[1..], sub);
      if exists i :: OccursAt(s, sub, i) {
        var i :| OccursAt(s, sub, i);
        if i > 0 {
          assert s[1..][i - 1..i - 1 + |sub|] == s[i..i + |sub|];
          assert OccursAt(s[1..], sub, i - 1);
        }
      }
      if exists j :: OccursAt(s[1..], sub, j) {
        var j :| OccursAt(s[1..], sub, j);
        assert s[1..][j..j + |sub|] == s[j + 1..j + 1 + |sub|];
        assert OccursAt(s, sub, j + 1);
      }
    }
  }

  /** A text holding a word holds every run inside that word. */
  lemma ContainsPart(f: string, w: string, part: string, off: nat)
    requires Contains(f, w)
    requires off + |part| <= |w| && w[off..off + |part|] == part
    ensures Contains(f, part)
  {
    ContainsIffOccurs(f, w);
    var i :| OccursAt(f, w, i);
    forall k | 0 <= k < |part| ensures f[i + off + k] == part[k] {
      assert f[i + off + k] == f[i..i + |w|][off + k] == w[off + k];
      assert part[k] == w[off..off + |part|][k];
    }
    assert f[i + off..i + off + |part|] == part;
    assert OccursAt(f, part, i + off);
    ContainsIffOccurs(f, part);
  }

  /** A word can only occur in a text that holds every one of its characters,
      so a word with a character the text lacks never occurs in it. */
  lemma {:induction false} MissingCharNotContained(s: string, sub: string, c: char)
    requires c in sub && c !in s
    ensures !Contains(s, sub)
    decreases |s|
  {
    if |s| > 0 {
      MissingCharNotContained(s[1..], sub, c);
    }
  }

  /** Python's `any(w in s for w in words)`. */
  predicate AnyContained(words: seq<string>, s: string) {
    exists i :: 0 <= i < |words| && Contains(s, words[i])
  }

  predicate IsUpperAscii(c: char) {
    'A' <= c <= 'Z'
  }

  /** `c.lower()` restricted to ASCII letters. */
  function LowerChar(c: char): (r: char)
    ensures !IsUpperAscii(r)
    ensures IsUpperAscii(c) ==> r as int == c as int + 32
    ensures !IsUpperAscii(c) ==> r == c
  {
    if IsUpperAscii(c) then (c as int + 32) as char else c
  }

  /** Python's `s.lower()` on ASCII letters; every other character is kept. */
  function ToLower(s: string): (r: string)
    ensures |r| == |s|
    ensures forall i :: 0 <= i < |s| && !IsUpperAscii(s[i]) ==> r[i] == s[i]
    ensures forall i :: 0 <= i < |r| ==> !IsUpperAscii(r[i])
  {
    seq(|s|, i requires 0 <= i < |s| => LowerChar(s[i]))
  }

  /** The code points Python's `str.isspace()` accepts, hence the ones
      `strip()` removes: tab through carriage return, the four information
      separators, space, next line, no-break space, ogham space mark, the
      typographic spaces U+2000 to U+200A, line and paragraph separators,
      narrow no-break space, medium mathematical space and ideographic space. */
  predicate IsSpace(c: char) {
    var n := c as int;
    || 9 <= n <= 13 || 28 <= n <= 32 || n == 0x85 || n == 0xA0 || n == 0x1680
    || 0x2000 <= n <= 0x200A || n == 0x2028 || n == 0x2029 || n == 0x202F
    || n == 0x205F || n == 0x3000
  }

  /** The number of whitespace characters `s` starts with. */
  function LeadingSpaces(s: string): (n: nat)
    ensures n <= |s|
    ensures forall k :: 0 <= k < n ==> IsSpace(s[k])
    ensures n == |s| || !IsSpace(s[n])
  {
    if |s| > 0 && IsSpace(s[0]) then
      var m := LeadingSpaces(s[1..]);
      assert forall k :: 0 < k < m + 1 ==> s[k] == s[1..][k - 1];
      m + 1
    else 0
  }

  function StripLeft(s: string): (r: string)
    ensures |r| <= |s| && r == s[|s| - |r|..]
    ensures forall k :: 0 <= k < |s| - |r| ==> IsSpace(s[k])
    ensures |r| == 0 || !IsSpace(r[0])
  {
    s[LeadingSpaces(s)..]
  }

  function StripRight(s: string): (r: string)
    ensures |r| <= |s| && r == s[..|r|]
    ensures forall k :: |r| <= k < |s| ==> IsSpace(s[k])
    ensures |r| == 0 || !IsSpace(r[|r| - 1])
  {
    if |s| > 0 && IsSpace(s[|s| - 1]) then StripRight(s[..|s| - 1]) else s
  }

  /** Trailing whitespace after a text that does not end in whitespace is
      exactly what `StripRight` removes. */
  lemma {:induction false} StripRightPadding(d: string, pad: string)
    requires |d| > 0 && !IsSpace(d[|d| - 1])
    requires forall k :: 0 <= k < |pad| ==> IsSpace(pad[k])
    ensures StripRight(d + pad) == d
    decreases |pad|
  {
    if |pad| == 0 {
      assert d + pad == d;
    } else {
      var s := d + pad;
      assert s[..|s| - 1] == d + pad[..|pad| - 1];
      StripRightPadding(d, pad[..|pad| - 1]);
    }
  }

  /** Python's `s.strip()`: the infix left after dropping whitespace at both ends. */
  function Strip(s: string): (r: string)
    ensures |r| == 0 || (!IsSpace(r[0]) && !IsSpace(r[|r| - 1]))
  {
    var l := StripLeft(s);
    var r := StripRight(l);
    assert |r| > 0 ==> r[0] == l[0];
    r
  }

  /** Python's `s.replace(c, "")` for a one-character pattern. */
  function RemoveChar(s: string, c: char): (r: string)
    ensures c !in r
    ensures |r| <= |s|
    ensures forall x :: x in r ==> x in s
  {
    if |s| == 0 then []
    else (if s[0] == c then [] else [s[0]]) + RemoveChar(s[1..], c)
  }

  /** Removing a character distributes over concatenation. */
  lemma {:induction false} RemoveCharAppend(a: string, b: string, c: char)
    ensures RemoveChar(a + b, c) == RemoveChar(a, c) + RemoveChar(b, c)
    decreases |a|
  {
    if |a| > 0 {
      assert (a + b)[1..] == a[1..] + b;
      RemoveCharAppend(a[1..], b, c);
    } else {
      assert a + b == b;
    }
  }

  /** Removing a character the text does not hold changes nothing. */
  lemma {:induction false} RemoveCharAbsent(s: string, c: char)
    requires c !in s
    ensures RemoveChar(s, c) == s
    decreases |s|
  {
    if |s| > 0 {
      RemoveCharAbsent(s[1..], c);
    }
  }

  predicate IsDigit(c: char) {
    '0' <= c <= '9'
  }

  /** No decimal digit is whitespace. */
  lemma DigitNotSpace(c: char)
    requires IsDigit(c)
    ensures !IsSpace(c)
  {
  }

  /** A non-empty run of ASCII decimal digits. */
  predicate IsDigits(s: string) {
    |s| > 0 && forall i :: 0 <= i < |s| ==> IsDigit(s[i])
  }

  /** The value of a run of decimal digits (`int(s)` or `float(s)` in Python). */
  function DigitsValue(s: string): nat
    requires forall i :: 0 <= i < |s| ==> IsDigit(s[i])
  {
    if |s| == 0 then 0
    else
      var d := s[|s| - 1];
      assert IsDigit(d);
      DigitsValue(s[..|s| - 1]) * 10 + (d as int - '0' as int)
  }

  function DigitChar(d: nat): (c: char)
    requires d < 10
    ensures IsDigit(c) && c as int - '0' as int == d
  {
    ('0' as int + d) as char
  }

  /** Decimal rendering of a natural, as Python's `str(n)` / f-string `{n}`. */
  function NatToString(n: nat): (r: string)
    ensures IsDigits(r)
    decreases n
  {
    if n < 10 then [DigitChar(n)] else NatToString(n / 10) + [DigitChar(n % 10)]
  }

  /** Rendering a natural and parsing it back yields the same natural. */
  lemma {:induction false} NatToStringRoundTrip(n: nat)
    ensures DigitsValue(NatToString(n)) == n
    decreases n
  {
    var s := NatToString(n);
    if n >= 10 {
      NatToStringRoundTrip(n / 10);
      assert s[..|s| - 1] == NatToString(n / 10);
    } else {
      assert s[..0] == [];
    }
  }

  /** Python's `s.rfind(c)`: the last index holding `c`, if any. */
  function LastIndexOf(s: string, c: char): (r: Option<nat>)
    ensures r.Some? ==> r.value < |s| && s[r.value] == c
    ensures r.Some? ==> forall k :: r.value < k < |s| ==> s[k] != c
    ensures r.None? <==> c !in s
  {
    if |s| == 0 then None
    else if s[|s| - 1] == c then Some(|s| - 1)
    else LastIndexOf(s[..|s| - 1], c)
  }

  /** `pathlib.Path(p).name`: the text after the last `/`. */
  function BaseName(p: string): (r: string)
    ensures '/' !in r
    ensures |r| <= |p| && r == p[|p| - |r|..]
    ensures '/' !in p ==> r == p
    ensures |r| < |p| ==> p[|p| - |r| - 1] == '/'
  {
    match LastIndexOf(p, '/')
    case None => p
    case Some(i) => p[i + 1..]
  }

  /** The final component of `dir/name` is `name` whenever `name` holds no `/`. */
  lemma BaseNameOfJoin(dir: string, name: string)
    requires '/' !in name
    ensures BaseName(dir + "/" + name) == name
  {
    var p := dir + "/" + name;
    assert p[|dir|] == '/';
    assert p[|dir| + 1..] == name;
  }

  /** `pathlib.Path(f).suffix`: the final component's text from its last dot,
      provided the dot is neither its first nor its last character; "" otherwise. */
  function Suffix(f: string): (r: string)
    ensures r == [] || (|r| >= 2 && r[0] == '.' && '.' !in r[1..] && '/' !in r)
    ensures |r| <= |f| && r == f[|f| - |r|..]
  {
    var name := BaseName(f);
    match LastIndexOf(name, '.')
    case None => ""
    case Some(i) =>
      if 0 < i < |name| - 1 then
        LastDotTail(name, i);
        TailOfTail(f, name, i);
        name[i..]
      else ""
  }

  /** After the last dot of a name without `/` comes neither dot nor `/`. */
  lemma LastDotTail(name: string, i: nat)
    requires i < |name| && name[i] == '.' && '/' !in name
    requires forall k :: i < k < |name| ==> name[k] != '.'
    ensures '.' !in name[i..][1..] && '/' !in name[i..]
  {
    var tail := name[i..];
    forall k | 0 <= k < |tail| ensures tail[k] != '/' && (k > 0 ==> tail[k] != '.') {
      assert tail[k] == name[i + k];
    }
  }

  /** A tail of a tail of `f` is a tail of `f`. */
  lemma TailOfTail(f: string, name: string, i: nat)
    requires |name| <= |f| && name == f[|f| - |name|..] && i <= |name|
    ensures name[i..] == f[|f| - |name[i..]|..]
  {
  }

  /** A single component whose last dot is at interior index `i` has the
      suffix that starts at that dot. */
  lemma SuffixAt(f: string, i: nat)
    requires '/' !in f && 0 < i < |f| - 1 && f[i] == '.'
    requires forall k :: i < k < |f| ==> f[k] != '.'
    ensures Suffix(f) == f[i..]
  {
    assert BaseName(f) == f;
    assert '.' in f;
  }

  /** A name `stem.ext` with a non-empty stem and extension and no other dot
      in the extension has suffix `.ext`. */
  lemma SuffixOfDotted(stem: string, ext: string)
    requires |stem| > 0 && |ext| > 0
    requires '/' !in stem && '/' !in ext && '.' !in ext
    ensures Suffix(stem + "." + ext) == "." + ext
    ensures '/' !in stem + "." + ext
  {
    var f := stem + "." + ext;
    assert '/' !in f by {
      forall k | 0 <= k < |f| ensures f[k] != '/' {
        if k < |stem| { assert f[k] == stem[k]; }
        else if k > |stem| { assert f[k] == ext[k - |stem| - 1]; }
      }
    }
    assert f[|stem|] == '.';
    forall k | |stem| < k < |f| ensures f[k] != '.' {
      assert f[k] == ext[k - |stem| - 1];
    }
    SuffixAt(f, |stem|);
    assert f[|stem|..] == "." + ext;
  }
}
