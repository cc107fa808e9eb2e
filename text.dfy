/**
 * String helpers with the meaning Python gives them: ordering of `str` values,
 * `str.split`, `str.join`, `str.replace`, `str.endswith`, `os.path.basename`
 * and `str(int)`.
 */
module Text {

  // ---------------------------------------------------------------------------
  // Ordering of str values (lexicographic by code point, as Python compares them)
  // ---------------------------------------------------------------------------

  predicate Less(a: string, b: string)
  {
    if a == [] then b != []
    else if b == [] then false
    else if a[0] != b[0] then a[0] < b[0]
    else Less(a[1..], b[1..])
  }

  lemma {:induction false} LessIrreflexive(a: string)
    ensures !Less(a, a)
  {
    if a != [] {
      LessIrreflexive(a[1..]);
    }
  }

  lemma {:induction false} LessTransitive(a: string, b: string, c: string)
    requires Less(a, b) && Less(b, c)
    ensures Less(a, c)
  {
    if a != [] && a[0] == b[0] && b[0] == c[0] {
      LessTransitive(a[1..], b[1..], c[1..]);
    }
  }

  lemma {:induction false} LessTotal(a: string, b: string)
    requires a != b
    ensures Less(a, b) || Less(b, a)
  {
    if a != [] && b != [] && a[0] == b[0] {
      assert a == [a[0]] + a[1..] && b == [b[0]] + b[1..];
      LessTotal(a[1..], b[1..]);
    }
  }

  /** Strictly ascending in Python's str order (hence also free of duplicates). */
  ghost predicate StrictlyAscending(s: seq<string>)
  {
    forall i, j :: 0 <= i < j < |s| ==> Less(s[i], s[j])
  }

  // ---------------------------------------------------------------------------
  // str.endswith, str.split, str.join, str.replace
  // ---------------------------------------------------------------------------

  predicate EndsWith(s: string, suffix: string)
  {
    |suffix| <= |s| && s[|s| - |suffix|..] == suffix
  }

  /** True when `sep` occurs in `s` starting at index `i`. */
  predicate OccursAt(s: string, sep: string, i: nat)
  {
    i + |sep| <= |s| && s[i..i + |sep|] == sep
  }

  /**
   * `s.split(sep)` for a non-empty separator: cut at every occurrence of `sep`,
   * scanning left to right without overlap. Always at least one piece.
   */
  function Split(s: string, sep: string): (parts: seq<string>)
    requires sep != []
    ensures |parts| >= 1
    decreases |s|
  {
    if |s| < |sep| then [s]
    else if s[..|sep|] == sep then [""] + Split(s[|sep|..], sep)
    else
      var rest := Split(s[1..], sep);
      [[s[0]] + rest[0]] + rest[1..]
  }

  /** `sep.join(parts)`. */
  function Join(parts: seq<string>, sep: string): string
  {
    if parts == [] then ""
    else if |parts| == 1 then parts[0]
    else parts[0] + sep + Join(parts[1..], sep)
  }

  /** Joining the pieces of a split with the same separator gives back the text. */
  lemma {:induction false} JoinSplit(s: string, sep: string)
    requires sep != []
    ensures Join(Split(s, sep), sep) == s
    decreases |s|
  {
    if |s| < |sep| {
      assert Split(s, sep) == [s];
    } else if s[..|sep|] == sep {
      JoinSplit(s[|sep|..], sep);
      JoinSplitCut(s, sep);
    } else {
      JoinSplit(s[1..], sep);
      JoinSplitShift(s, sep);
    }
  }

  /** The step of `JoinSplit` where the text starts with the separator. */
  lemma {:induction false} JoinSplitCut(s: string, sep: string)
    requires sep != [] && |s| >= |sep| && s[..|sep|] == sep
    requires Join(Split(s[|sep|..], sep), sep) == s[|sep|..]
    ensures Join(Split(s, sep), sep) == s
  {
    var parts, tail := Split(s, sep), Split(s[|sep|..], sep);
    assert parts == [""] + tail && parts[1..] == tail;
    assert Join(parts, sep) == "" + sep + Join(tail, sep);
    assert s == sep + s[|sep|..];
  }

  /** The step of `JoinSplit` where the first character joins the first piece. */
  lemma {:induction false} JoinSplitShift(s: string, sep: string)
    requires sep != [] && |s| >= |sep| && s[..|sep|] != sep
    requires Join(Split(s[1..], sep), sep) == s[1..]
    ensures Join(Split(s, sep), sep) == s
  {
    var rest := Split(s[1..], sep);
    assert Split(s, sep) == [[s[0]] + rest[0]] + rest[1..];
    JoinShift(s[0], rest, sep);
    assert s == [s[0]] + s[1..];
  }

  /** Putting a character in front of the first piece puts it in front of the joined text. */
  lemma {:induction false} JoinShift(c: char, parts: seq<string>, sep: string)
    requires parts != []
    ensures Join([[c] + parts[0]] + parts[1..], sep) == [c] + Join(parts, sep)
  {
    var first, more := [c] + parts[0], parts[1..];
    assert parts == [parts[0]] + more;
    JoinCons(first, more, sep);
    JoinCons(parts[0], more, sep);
    if more != [] {
      assert first + sep + Join(more, sep) == [c] + (parts[0] + sep + Join(more, sep));
    }
  }

  lemma {:induction false} JoinCons(x: string, tail: seq<string>, sep: string)
    ensures Join([x] + tail, sep) == if tail == [] then x else x + sep + Join(tail, sep)
  {
    assert ([x] + tail)[1..] == tail;
  }

  /** The first piece of a split is a prefix of the text. */
  lemma {:induction false} SplitFirstIsPrefix(s: string, sep: string)
    requires sep != []
    ensures |Split(s, sep)[0]| <= |s| && s[..|Split(s, sep)[0]|] == Split(s, sep)[0]
    decreases |s|
  {
    if |s| >= |sep| && s[..|sep|] != sep {
      var rest := Split(s[1..], sep);
      SplitFirstIsPrefix(s[1..], sep);
      assert Split(s, sep)[0] == [s[0]] + rest[0];
      ConsPrefix(s, rest[0]);
    }
  }

  lemma ConsPrefix(s: string, q: string)
    requires s != [] && |q| < |s| && s[1..][..|q|] == q
    ensures s[..|q| + 1] == [s[0]] + q
  {
    assert s[..|q| + 1] == [s[0]] + s[1..][..|q|];
  }

  /**
   * No piece of a split contains the separator: the scan cuts at every
   * occurrence, so together with `JoinSplit` the pieces are the maximal
   * separator-free runs between cuts.
   */
  lemma {:induction false} SplitPiecesAvoidSeparator(s: string, sep: string)
    requires sep != []
    ensures forall k: nat, i: nat :: k < |Split(s, sep)| ==> !OccursAt(Split(s, sep)[k], sep, i)
    decreases |s|
  {
    var parts := Split(s, sep);
    if |s| < |sep| {
      assert parts == [s];
    } else if s[..|sep|] == sep {
      var tail := Split(s[|sep|..], sep);
      SplitPiecesAvoidSeparator(s[|sep|..], sep);
      assert parts == [""] + tail;
      forall k: nat, i: nat | k < |parts| ensures !OccursAt(parts[k], sep, i) {
        if k > 0 {
          assert parts[k] == tail[k - 1];
        }
      }
    } else {
      var rest := Split(s[1..], sep);
      SplitPiecesAvoidSeparator(s[1..], sep);
      SplitFirstIsPrefix(s[1..], sep);
      var p := [s[0]] + rest[0];
      assert parts == [p] + rest[1..];
      forall k: nat, i: nat | k < |parts| ensures !OccursAt(parts[k], sep, i) {
        if k > 0 {
          assert parts[k] == rest[k];
        } else if i == 0 {
          if |sep| <= |p| {
            assert s[..|p|] == p;
            assert p[..|sep|] == s[..|sep|];
          }
        } else {
          assert !OccursAt(rest[0], sep, i - 1);
          if i + |sep| <= |p| {
            assert p[i..i + |sep|] == rest[0][i - 1..i - 1 + |sep|];
          }
        }
      }
    }
  }

  /** A text without the separator is a single piece. */
  lemma {:induction false} SplitWithoutSeparator(s: string, sep: string)
    requires sep != []
    requires forall i: nat :: !OccursAt(s, sep, i)
    ensures Split(s, sep) == [s]
    decreases |s|
  {
    if |s| >= |sep| {
      assert !OccursAt(s, sep, 0);
      assert s[..|sep|] == s[0..|sep|];
      forall i: nat ensures !OccursAt(s[1..], sep, i) {
        assert !OccursAt(s, sep, i + 1);
        if i + |sep| <= |s[1..]| {
          assert s[1..][i..i + |sep|] == s[i + 1..i + 1 + |sep|];
        }
      }
      SplitWithoutSeparator(s[1..], sep);
      assert s == [s[0]] + s[1..];
    }
  }

  /** `s.replace(pat, rep)` for a non-empty pattern: every non-overlapping occurrence, left to right. */
  function Replace(s: string, pat: string, rep: string): string
    requires pat != []
    decreases |s|
  {
    if |s| < |pat| then s
    else if s[..|pat|] == pat then rep + Replace(s[|pat|..], pat, rep)
    else [s[0]] + Replace(s[1..], pat, rep)
  }

  /** Python's identity `s.replace(pat, rep) == rep.join(s.split(pat))`. */
  lemma {:induction false} ReplaceIsJoinOfSplit(s: string, pat: string, rep: string)
    requires pat != []
    ensures Replace(s, pat, rep) == Join(Split(s, pat), rep)
    decreases |s|
  {
    if |s| < |pat| {
    } else if s[..|pat|] == pat {
      ReplaceIsJoinOfSplit(s[|pat|..], pat, rep);
    } else {
      var rest := Split(s[1..], pat);
      ReplaceIsJoinOfSplit(s[1..], pat, rep);
      if |rest| > 1 {
        assert Join(rest, rep) == rest[0] + rep + Join(rest[1..], rep);
      }
    }
  }

  /** Replacing cannot introduce a character that neither the text nor the replacement has. */
  lemma {:induction false} ReplaceIntroducesNothing(s: string, pat: string, rep: string, c: char)
    requires pat != []
    requires c !in s && c !in rep
    ensures c !in Replace(s, pat, rep)
    decreases |s|
  {
    if |s| < |pat| {
    } else if s[..|pat|] == pat {
      assert forall k :: 0 <= k < |s[|pat|..]| ==> s[|pat|..][k] == s[|pat| + k];
      ReplaceIntroducesNothing(s[|pat|..], pat, rep, c);
    } else {
      assert forall k :: 0 <= k < |s[1..]| ==> s[1..][k] == s[1 + k];
      ReplaceIntroducesNothing(s[1..], pat, rep, c);
    }
  }

  /**
   * When the pattern occurs in `stem + pat` only at its end, exactly that
   * final occurrence is replaced.
   */
  lemma {:induction false} ReplaceFinalOccurrence(stem: string, pat: string, rep: string)
    requires pat != []
    requires forall i: nat :: i < |stem| ==> !OccursAt(stem + pat, pat, i)
    ensures Replace(stem + pat, pat, rep) == stem + rep
    decreases |stem|
  {
    var s := stem + pat;
    if stem == [] {
      assert s == pat;
      assert s[|pat|..] == [];
    } else {
      var tail := stem[1..];
      assert s[1..] == tail + pat;
      forall i: nat | i < |tail| ensures !OccursAt(tail + pat, pat, i) {
        assert !OccursAt(s, pat, i + 1);
        assert (tail + pat)[i..i + |pat|] == s[i + 1..i + 1 + |pat|];
      }
      assert !OccursAt(s, pat, 0);
      assert s[..|pat|] == s[0..|pat|];
      ReplaceFinalOccurrence(tail, pat, rep);
      assert Replace(s, pat, rep) == [s[0]] + Replace(s[1..], pat, rep);
      assert stem == [stem[0]] + tail;
    }
  }

  /** A stem without the pattern's first character holds no occurrence before the appended pattern. */
  lemma OnlyFinalOccurrence(stem: string, pat: string)
    requires pat != [] && pat[0] !in stem
    ensures forall i: nat :: i < |stem| ==> !OccursAt(stem + pat, pat, i)
  {
    forall i: nat | i < |stem| ensures !OccursAt(stem + pat, pat, i) {
      if i + |pat| <= |stem + pat| {
        assert (stem + pat)[i..i + |pat|][0] == stem[i];
        assert stem[i] in stem;
      }
    }
  }

  /** A text without the separator's first character does not split. */
  lemma SplitWithoutSeparatorChar(s: string, sep: string)
    requires sep != [] && sep[0] !in s
    ensures Split(s, sep) == [s]
  {
    forall i: nat ensures !OccursAt(s, sep, i) {
      if i + |sep| <= |s| {
        assert s[i..i + |sep|][0] == s[i];
        assert s[i] in s;
      }
    }
    SplitWithoutSeparator(s, sep);
  }

  /** Without an occurrence of the pattern, replacing changes nothing. */
  lemma ReplaceWithoutOccurrence(s: string, pat: string, rep: string)
    requires pat != []
    requires forall i: nat :: !OccursAt(s, pat, i)
    ensures Replace(s, pat, rep) == s
  {
    ReplaceIsJoinOfSplit(s, pat, rep);
    SplitWithoutSeparator(s, pat);
  }

  // ---------------------------------------------------------------------------
  // os.path.basename (POSIX): the text after the last '/'
  // ---------------------------------------------------------------------------

  function Basename(path: string): (name: string)
    ensures '/' !in name
    ensures |name| <= |path| && path[|path| - |name|..] == name
    ensures |name| < |path| ==> path[|path| - |name| - 1] == '/'
  {
    if path == [] || path[|path| - 1] == '/' then ""
    else Basename(path[..|path| - 1]) + [path[|path| - 1]]
  }

  /** The basename of a path is what follows its last '/'. */
  lemma {:induction false} BasenameAfterSlash(dir: string, name: string)
    requires '/' !in name
    ensures Basename(dir + "/" + name) == name
    decreases |name|
  {
    var path := dir + "/" + name;
    if name == [] {
      assert path[|path| - 1] == '/';
    } else {
      var front := name[..|name| - 1];
      assert path[..|path| - 1] == dir + "/" + front;
      assert '/' !in front by {
        forall k | 0 <= k < |front| ensures front[k] != '/' {
          assert front[k] == name[k];
        }
      }
      BasenameAfterSlash(dir, front);
      assert name == front + [name[|name| - 1]];
    }
  }

  /** The basename of a name without '/' is the name itself. */
  lemma BasenameOfName(name: string)
    requires '/' !in name
    ensures Basename(name) == name
  {
    assert forall k :: 0 <= k < |name| ==> name[k] != '/';
    var b := Basename(name);
    assert |b| == |name|;
    assert b == name[|name| - |b|..] == name;
  }

  /** The basename of a name placed in a directory ending in '/', or in none, is the name. */
  lemma BasenameOfFile(dir: string, name: string)
    requires dir == [] || dir[|dir| - 1] == '/'
    requires '/' !in name
    ensures Basename(dir + name) == name
  {
    if dir == [] {
      assert dir + name == name;
      BasenameOfName(name);
    } else {
      var parent := dir[..|dir| - 1];
      assert dir == parent + "/";
      assert dir + name == parent + "/" + name;
      BasenameAfterSlash(parent, name);
    }
  }

  // ---------------------------------------------------------------------------
  // str(int) and its inverse
  // ---------------------------------------------------------------------------

  function DigitChar(d: nat): char
    requires d < 10
  {
    "0123456789"[d]
  }

  function DigitValue(c: char): nat
  {
    if '0' <= c <= '9' then (c as int - '0' as int) as nat else 0
  }

  predicate IsDigits(s: string)
  {
    forall i :: 0 <= i < |s| ==> '0' <= s[i] <= '9'
  }

  /** Decimal digits of `n`, most significant first, without leading zeros. */
  function NatToString(n: nat): (s: string)
    ensures |s| >= 1 && IsDigits(s)
    ensures |s| > 1 ==> s[0] != '0'
  {
    if n < 10 then [DigitChar(n)]
    else NatToString(n / 10) + [DigitChar(n % 10)]
  }

  /** The value of a string of decimal digits (0 for the empty string). */
  function ParseNat(s: string): nat
  {
    if s == [] then 0
    else ParseNat(s[..|s| - 1]) * 10 + DigitValue(s[|s| - 1])
  }

  lemma {:induction false} ParseNatToString(n: nat)
    ensures ParseNat(NatToString(n)) == n
  {
    var s := NatToString(n);
    if n >= 10 {
      var d := n % 10;
      assert s == NatToString(n / 10) + [DigitChar(d)];
      assert s[..|s| - 1] == NatToString(n / 10) && s[|s| - 1] == DigitChar(d);
      DigitRoundTrip(d);
      ParseNatToString(n / 10);
      assert ParseNat(s) == ParseNat(NatToString(n / 10)) * 10 + DigitValue(DigitChar(d));
    } else {
      assert s == [DigitChar(n)];
      DigitRoundTrip(n);
      assert ParseNat(s) == ParseNat([]) * 10 + DigitValue(DigitChar(n));
    }
  }

  lemma DigitRoundTrip(d: nat)
    requires d < 10
    ensures DigitValue(DigitChar(d)) == d
  {
  }

  /** `str(i)` for an int: an optional minus sign, then the digits of |i|. */
  function IntToString(i: int): (s: string)
    ensures |s| >= 1
  {
    if i < 0 then "-" + NatToString(-i) else NatToString(i)
  }

  /** The inverse of IntToString on its image. */
  function ParseInt(s: string): int
  {
    if s != [] && s[0] == '-' then -(ParseNat(s[1..]) as int) else ParseNat(s)
  }

  lemma {:induction false} IntToStringRoundTrip(i: int)
    ensures ParseInt(IntToString(i)) == i
  {
    if i < 0 {
      var digits := NatToString(-i);
      assert ParseInt("-" + digits) == -(ParseNat(digits) as int) by {
        assert ("-" + digits)[0] == '-' && ("-" + digits)[1..] == digits;
      }
      ParseNatToString(-i);
    } else {
      var digits := NatToString(i);
      assert ParseInt(digits) == ParseNat(digits) by {
        assert '0' <= digits[0] <= '9';
      }
      ParseNatToString(i);
    }
  }
}
