/**
 * The Normalizer: turns an optional text cell (a DOI or a title) into the key
 * used for duplicate detection. An absent or empty cell gives the empty key;
 * otherwise the text is stripped of surrounding whitespace and lower-cased.
 * Whitespace and case are the ASCII ones.
 */
module Normalizer {
  import opened Wrappers

  /** The ASCII characters a string strip removes: space, \t \n \v \f \r and the
      four information separators \x1c..\x1f. */
  predicate IsSpace(c: char)
  {
    c == ' ' || ('\t' <= c <= '\r') || ('\U{1C}' <= c <= '\U{1F}')
  }

  predicate IsUpper(c: char)
  {
    'A' <= c <= 'Z'
  }

  ghost predicate AllSpace(s: string)
  {
    forall i :: 0 <= i < |s| ==> IsSpace(s[i])
  }

  function ToLower(c: char): (r: char)
    ensures !IsUpper(r)
    ensures IsSpace(r) <==> IsSpace(c)
    ensures !IsUpper(c) ==> r == c
    ensures IsUpper(c) ==> r as int == c as int - 'A' as int + 'a' as int
  {
    if IsUpper(c) then (c as int - 'A' as int + 'a' as int) as char else c
  }

  /** ASCII lower-casing, character by character. */
  function Lower(s: string): string
  {
    seq(|s|, i requires 0 <= i < |s| => ToLower(s[i]))
  }

  /** Removes leading whitespace. */
  function TrimStart(s: string): string
  {
    if s != [] && IsSpace(s[0]) then TrimStart(s[1..]) else s
  }

  /** Removes trailing whitespace. */
  function TrimEnd(s: string): string
  {
    if s != [] && IsSpace(s[|s| - 1]) then TrimEnd(s[..|s| - 1]) else s
  }

  /** TrimStart keeps a suffix of s: what it removes is all whitespace, and what
      it keeps is empty or starts with a non-whitespace character. */
  lemma {:induction false} TrimStartSpec(s: string)
    ensures |TrimStart(s)| <= |s| && TrimStart(s) == s[|s| - |TrimStart(s)|..]
    ensures AllSpace(s[..|s| - |TrimStart(s)|])
    ensures TrimStart(s) == [] || !IsSpace(TrimStart(s)[0])
  {
    if s != [] && IsSpace(s[0]) {
      TrimStartSpec(s[1..]);
      var n := |s| - |TrimStart(s)|;
      assert s[1..][..n - 1] == s[1..n];
      forall k | 0 <= k < n ensures IsSpace(s[..n][k]) {
        if k > 0 { assert s[..n][k] == s[1..][..n - 1][k - 1]; }
      }
    } else {
      assert s[..0] == [];
    }
  }

  /** TrimEnd keeps a prefix of s, symmetrically to TrimStart. */
  lemma {:induction false} TrimEndSpec(s: string)
    ensures |TrimEnd(s)| <= |s| && TrimEnd(s) == s[..|TrimEnd(s)|]
    ensures AllSpace(s[|TrimEnd(s)|..])
    ensures TrimEnd(s) == [] || !IsSpace(TrimEnd(s)[|TrimEnd(s)| - 1])
  {
    if s != [] && IsSpace(s[|s| - 1]) {
      var s' := s[..|s| - 1];
      TrimEndSpec(s');
      var n := |TrimEnd(s)|;
      assert s'[..n] == s[..n];
      forall k | 0 <= k < |s| - n ensures IsSpace(s[n..][k]) {
        if k < |s| - 1 - n { assert s[n..][k] == s'[n..][k]; }
      }
    } else {
      assert s[|s|..] == [];
    }
  }

  /** Whitespace stripped from both ends. */
  function Strip(s: string): string
  {
    TrimEnd(TrimStart(s))
  }

  /** normalize_text: '' for an absent or empty value, otherwise the value
      stripped and lower-cased. */
  function Normalize(v: Option<string>): string
  {
    match v
    case None => ""
    case Some(s) => if s == "" then "" else Lower(Strip(s))
  }

  /**
   * The key of an absent value is empty; the key of a present value is no
   * longer than it, is empty exactly when the value is all whitespace, has no
   * whitespace at either end and no upper-case letter.
   */
  lemma NormalizeSpec(v: Option<string>)
    ensures v.None? ==> Normalize(v) == ""
    ensures v.Some? ==> |Normalize(v)| <= |v.value|
    ensures v.Some? ==> (Normalize(v) == "" <==> AllSpace(v.value))
    ensures var r := Normalize(v); r == [] || (!IsSpace(r[0]) && !IsSpace(r[|r| - 1]))
    ensures forall i :: 0 <= i < |Normalize(v)| ==> !IsUpper(Normalize(v)[i])
  {
    if v.Some? && v.value != "" {
      StripBounds(v.value);
    }
  }

  /** What Strip keeps is no longer than s, has no whitespace at either end,
      and is empty exactly when s is all whitespace. */
  lemma StripBounds(s: string)
    ensures |Strip(s)| <= |s|
    ensures Strip(s) == [] || (!IsSpace(Strip(s)[0]) && !IsSpace(Strip(s)[|Strip(s)| - 1]))
    ensures Strip(s) == [] <==> AllSpace(s)
  {
    var t := TrimStart(s);
    var r := TrimEnd(t);
    TrimStartSpec(s);
    TrimEndSpec(t);
    var i := |s| - |t|;
    if r == [] {
      assert t[|r|..] == t;
      assert t == [];
      forall k | 0 <= k < |s| ensures IsSpace(s[k]) {
        assert s[k] == s[..i][k];
      }
    } else {
      assert r[0] == t[0];
      assert t[0] == s[i];
      assert r[|r| - 1] == t[|r| - 1];
    }
  }

  /** TrimStart keeps exactly s[i..] when s[..i] is whitespace and s[i] is not. */
  lemma {:induction false} TrimStartAt(s: string, i: nat)
    requires i <= |s| && AllSpace(s[..i])
    requires i < |s| ==> !IsSpace(s[i])
    ensures TrimStart(s) == s[i..]
    decreases i
  {
    if i > 0 {
      assert IsSpace(s[..i][0]);
      assert s[1..][..i - 1] == s[..i][1..];
      TrimStartAt(s[1..], i - 1);
      assert s[1..][i - 1..] == s[i..];
    }
  }

  /** TrimEnd keeps exactly s[..j] when s[j..] is whitespace and s[j - 1] is not. */
  lemma {:induction false} TrimEndAt(s: string, j: nat)
    requires j <= |s| && AllSpace(s[j..])
    requires 0 < j ==> !IsSpace(s[j - 1])
    ensures TrimEnd(s) == s[..j]
    decreases |s| - j
  {
    if j < |s| {
      assert IsSpace(s[j..][|s| - 1 - j]);
      assert s[..|s| - 1][j..] == s[j..][..|s| - 1 - j];
      TrimEndAt(s[..|s| - 1], j);
      assert s[..|s| - 1][..j] == s[..j];
    }
  }

  /**
   * Strip is the unique "core" of s: whenever s[..i] and s[j..] are whitespace
   * and s[i..j] is empty or starts and ends with non-whitespace, Strip(s) is
   * s[i..j].
   */
  lemma {:induction false} StripIsCore(s: string, i: nat, j: nat)
    requires i <= j <= |s|
    requires AllSpace(s[..i]) && AllSpace(s[j..])
    requires i < j ==> !IsSpace(s[i]) && !IsSpace(s[j - 1])
    ensures Strip(s) == s[i..j]
  {
    if i == j {
      SpaceSplit(s, i);
      StripBounds(s);
    } else {
      TrimStartAt(s, i);
      var t := s[i..];
      assert t[j - i..] == s[j..];
      TrimEndAt(t, j - i);
      assert t[..j - i] == s[i..j];
    }
  }

  lemma SpaceSplit(s: string, i: nat)
    requires i <= |s| && AllSpace(s[..i]) && AllSpace(s[i..])
    ensures AllSpace(s)
  {
    forall k | 0 <= k < |s| ensures IsSpace(s[k]) {
      if k < i { assert s[k] == s[..i][k]; } else { assert s[k] == s[i..][k - i]; }
    }
  }

  /** Stripping a string that has no surrounding whitespace changes nothing. */
  lemma StripTrimmed(s: string)
    requires s == [] || (!IsSpace(s[0]) && !IsSpace(s[|s| - 1]))
    ensures Strip(s) == s
  {
    assert s[..0] == [] && s[|s|..] == [];
    StripIsCore(s, 0, |s|);
  }

  /** normalize_text(normalize_text(x)) == normalize_text(x). */
  lemma {:induction false} NormalizeIdempotent(v: Option<string>)
    ensures Normalize(Some(Normalize(v))) == Normalize(v)
  {
    var r := Normalize(v);
    NormalizeSpec(v);
    if r != "" {
      StripTrimmed(r);
      assert Lower(r) == r;
    }
  }

  /** A present value is normalised to the lower-cased slice that remains once
      the whitespace on both sides is cut off. */
  lemma NormalizePresent(s: string, i: nat, j: nat)
    requires i <= j <= |s|
    requires AllSpace(s[..i]) && AllSpace(s[j..])
    requires i < j ==> !IsSpace(s[i]) && !IsSpace(s[j - 1])
    ensures Normalize(Some(s)) == Lower(s[i..j])
  {
    StripIsCore(s, i, j);
    if s == "" {
      assert s[i..j] == "";
    }
  }
}
