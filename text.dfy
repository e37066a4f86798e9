/** Character-sequence primitives the notes service and its client rely on:
    the database's case-insensitive substring test, JavaScript's
    `String.prototype.trim` and `split`, and the lexicographic order that
    `Array.prototype.sort` uses by default. */
module Text {

  // ---------------------------------------------------------------------------
  // Case-insensitive substring test (`contains` with `mode: 'insensitive'`)
  // ---------------------------------------------------------------------------

  /** ASCII case folding, standing for the database collation's lower-casing. */
  function Lower(c: char): char
  {
    if 'A' <= c <= 'Z' then (c as int + 32) as char else c
  }

  function Fold(s: string): string
  {
    seq(|s|, i requires 0 <= i < |s| => Lower(s[i]))
  }

  predicate StartsWith(hay: string, needle: string)
  {
    |needle| <= |hay| && hay[..|needle|] == needle
  }

  /** `needle` occurs in `hay`, tried at every starting position in turn. */
  predicate Contains(hay: string, needle: string)
    decreases |hay|
  {
    StartsWith(hay, needle) || (hay != [] && Contains(hay[1..], needle))
  }

  /** `needle` is a contiguous block of `hay`. */
  ghost predicate IsInfix(needle: string, hay: string)
  {
    exists i, j :: 0 <= i <= j <= |hay| && hay[i..j] == needle
  }

  /** A successful search has found a contiguous block. */
  lemma {:induction false} ContainsGivesInfix(hay: string, needle: string)
    requires Contains(hay, needle)
    ensures IsInfix(needle, hay)
    decreases |hay|
  {
    if StartsWith(hay, needle) {
      assert hay[0..|needle|] == needle;
    } else {
      ContainsGivesInfix(hay[1..], needle);
      var i, j :| 0 <= i <= j <= |hay[1..]| && hay[1..][i..j] == needle;
      assert hay[i + 1..j + 1] == hay[1..][i..j];
    }
  }

  /** The block `hay[i..j]` is found by the search. */
  lemma {:induction false} InfixGivesContains(hay: string, needle: string, i: nat, j: nat)
    requires i <= j <= |hay| && hay[i..j] == needle
    ensures Contains(hay, needle)
    decreases i
  {
    if i == 0 {
      assert StartsWith(hay, needle);
    } else {
      assert hay[1..][i - 1..j - 1] == hay[i..j];
      InfixGivesContains(hay[1..], needle, i - 1, j - 1);
    }
  }

  /** The position-by-position search finds exactly the infixes. */
  lemma ContainsIsInfix(hay: string, needle: string)
    ensures Contains(hay, needle) <==> IsInfix(needle, hay)
  {
    if Contains(hay, needle) {
      ContainsGivesInfix(hay, needle);
    }
    if IsInfix(needle, hay) {
      var i, j :| 0 <= i <= j <= |hay| && hay[i..j] == needle;
      InfixGivesContains(hay, needle, i, j);
    }
  }

  /** `needle` occurs in `hay` when both are case-folded. */
  predicate ContainsInsensitive(hay: string, needle: string)
  {
    Contains(Fold(hay), Fold(needle))
  }

  // ---------------------------------------------------------------------------
  // String length as JavaScript reports it (`String.prototype.length`)
  // ---------------------------------------------------------------------------

  /** The number of UTF-16 code units of `s`: two for a character outside the
      Basic Multilingual Plane, one for any other. */
  function Utf16Length(s: string): (n: nat)
    ensures |s| <= n <= 2 * |s|
  {
    if s == [] then 0
    else (if s[0] as int > 0xFFFF then 2 else 1) + Utf16Length(s[1..])
  }

  /** Without characters outside the Basic Multilingual Plane both lengths agree. */
  lemma {:induction false} Utf16LengthBmp(s: string)
    requires forall i :: 0 <= i < |s| ==> s[i] as int <= 0xFFFF
    ensures Utf16Length(s) == |s|
  {
    if s != [] {
      assert forall i :: 0 <= i < |s[1..]| ==> s[1..][i] == s[i + 1];
      Utf16LengthBmp(s[1..]);
    }
  }

  /** A string made only of characters outside the Basic Multilingual Plane
      is twice as long in code units. */
  lemma {:induction false} Utf16LengthAstral(s: string)
    requires forall i :: 0 <= i < |s| ==> s[i] as int > 0xFFFF
    ensures Utf16Length(s) == 2 * |s|
  {
    if s != [] {
      assert forall i :: 0 <= i < |s[1..]| ==> s[1..][i] == s[i + 1];
      Utf16LengthAstral(s[1..]);
    }
  }

  // ---------------------------------------------------------------------------
  // Lexicographic order (the default comparison of `Array.prototype.sort`)
  // ---------------------------------------------------------------------------

  /** `a` sorts strictly before `b`: at the first difference `a` has the smaller
      character, or `a` is a proper prefix of `b`. */
  predicate Less(a: string, b: string)
    decreases |a|
  {
    if a == [] then b != []
    else if b == [] then false
    else a[0] < b[0] || (a[0] == b[0] && Less(a[1..], b[1..]))
  }

  lemma {:induction false} LessIrreflexive(a: string)
    ensures !Less(a, a)
  {
    if a != [] {
      LessIrreflexive(a[1..]);
    }
  }

  lemma {:induction false} LessTransitive(a: string, b: string, c: string)
    requires Less(a, b) && Less(b, c)
    ensures Less(a, c)
  {
    if a != [] && a[0] == b[0] && b[0] == c[0] {
      LessTransitive(a[1..], b[1..], c[1..]);
    }
  }

  /** Any two different strings are ordered one way or the other. */
  lemma {:induction false} LessTotal(a: string, b: string)
    requires a != b
    ensures Less(a, b) || Less(b, a)
  {
    if a != [] && b != [] && a[0] == b[0] {
      assert a == [a[0]] + a[1..] && b == [b[0]] + b[1..];
      LessTotal(a[1..], b[1..]);
    }
  }

  // ---------------------------------------------------------------------------
  // `String.prototype.trim`
  // ---------------------------------------------------------------------------

  /** The code points ECMAScript's `trim` removes: WhiteSpace and LineTerminator. */
  predicate IsSpace(c: char)
  {
    var k := c as int;
    k == 0x09 || k == 0x0A || k == 0x0B || k == 0x0C || k == 0x0D || k == 0x20
    || k == 0xA0 || k == 0x1680 || (0x2000 <= k <= 0x200A) || k == 0x2028
    || k == 0x2029 || k == 0x202F || k == 0x205F || k == 0x3000 || k == 0xFEFF
  }

  predicate AllSpace(s: string)
  {
    forall i :: 0 <= i < |s| ==> IsSpace(s[i])
  }

  /** Neither end of `s` is whitespace. */
  predicate Trimmed(s: string)
  {
    s == [] || (!IsSpace(s[0]) && !IsSpace(s[|s| - 1]))
  }

  function TrimStart(s: string): string
    decreases |s|
  {
    if s != [] && IsSpace(s[0]) then TrimStart(s[1..]) else s
  }

  function TrimEnd(s: string): string
    decreases |s|
  {
    if s != [] && IsSpace(s[|s| - 1]) then TrimEnd(s[..|s| - 1]) else s
  }

  function Trim(s: string): string
  {
    TrimEnd(TrimStart(s))
  }

  /** TrimStart drops a whitespace prefix and keeps the rest. */
  lemma {:induction false} TrimStartSpec(s: string)
    ensures var t := TrimStart(s);
      |t| <= |s| && t == s[|s| - |t|..] && AllSpace(s[..|s| - |t|])
      && (t == [] || !IsSpace(t[0]))
  {
    if s != [] && IsSpace(s[0]) {
      TrimStartSpec(s[1..]);
      var t := TrimStart(s);
      assert s[1..][..|s| - 1 - |t|] == s[1..|s| - |t|];
    }
  }

  /** TrimEnd drops a whitespace suffix and keeps the rest. */
  lemma {:induction false} TrimEndSpec(s: string)
    ensures var t := TrimEnd(s);
      |t| <= |s| && t == s[..|t|] && AllSpace(s[|t|..])
      && (t == [] || !IsSpace(t[|t| - 1]))
  {
    if s != [] && IsSpace(s[|s| - 1]) {
      TrimEndSpec(s[..|s| - 1]);
      var t := TrimEnd(s);
      assert s[|t|..] == s[..|s| - 1][|t|..] + [s[|s| - 1]];
    }
  }

  /** `trim` removes whitespace from both ends and nothing else, leaves no
      whitespace at either end, and yields "" exactly for all-whitespace input. */
  lemma TrimSpec(s: string)
    ensures Trimmed(Trim(s))
    ensures exists i, j :: 0 <= i <= j <= |s| && Trim(s) == s[i..j] && AllSpace(s[..i]) && AllSpace(s[j..])
    ensures Trim(s) == [] <==> AllSpace(s)
  {
    var u := TrimStart(s);
    TrimStartSpec(s);
    TrimEndSpec(u);
    var t := TrimEnd(u);
    var i := |s| - |u|;
    var j := i + |t|;
    assert t == s[i..j];
    assert u[|t|..] == s[j..];
    if t != [] {
      assert t[0] == u[0];
    }
    if t == [] {
      forall k | 0 <= k < |s| ensures IsSpace(s[k]) {
        assert s[k] == s[..i][k];
      }
    }
  }

  // ---------------------------------------------------------------------------
  // `String.prototype.split` on a one-character separator
  // ---------------------------------------------------------------------------

  /** The pieces of `s` between occurrences of `sep`; at least one piece, and
      the empty string splits into one empty piece. */
  function Split(s: string, sep: char): (pieces: seq<string>)
    ensures |pieces| >= 1
    decreases |s|
  {
    if s == [] then [[]]
    else
      var rest := Split(s[1..], sep);
      if s[0] == sep then [[]] + rest
      else [[s[0]] + rest[0]] + rest[1..]
  }

  function Count(s: string, c: char): nat
    decreases |s|
  {
    if s == [] then 0 else (if s[0] == c then 1 else 0) + Count(s[1..], c)
  }

  /** One piece more than there are separators, and no piece holds a separator. */
  lemma {:induction false} SplitPieces(s: string, sep: char)
    ensures |Split(s, sep)| == Count(s, sep) + 1
    ensures forall k :: 0 <= k < |Split(s, sep)| ==> sep !in Split(s, sep)[k]
  {
    if s != [] {
      SplitPieces(s[1..], sep);
    }
  }

  /** Splitting at one separator splits the two sides independently. */
  lemma {:induction false} SplitConcat(a: string, b: string, sep: char)
    ensures Split(a + [sep] + b, sep) == Split(a, sep) + Split(b, sep)
  {
    if a == [] {
      assert a + [sep] + b == [sep] + b;
      assert ([sep] + b)[1..] == b;
    } else {
      assert (a + [sep] + b)[1..] == a[1..] + [sep] + b;
      SplitConcat(a[1..], b, sep);
    }
  }

  /** A string without the separator is a single piece. */
  lemma {:induction false} SplitWhole(s: string, sep: char)
    requires sep !in s
    ensures Split(s, sep) == [s]
  {
    if s != [] {
      SplitWhole(s[1..], sep);
      assert s == [s[0]] + s[1..];
    }
  }
}
