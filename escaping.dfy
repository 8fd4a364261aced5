/**
 * Escaping of free-form names (group, topic, subscription, OAuth provider)
 * before they are placed into a metric path: HermesMetrics.escapeName and
 * HermesMetrics.unescapeName.  Both are two chained calls of Java's
 * String.replaceAll whose patterns match one literal string, so they are
 * modelled with a literal left-to-right ReplaceAll.
 */
module Escaping {

  /** The marker that replaces a '.' (REPLACEMENT_CHAR). */
  const Replacement: string := "_"
  /** What a '_' is doubled into before '.' is replaced (TEMPORARY_REPLACEMENT_CHAR). */
  const TemporaryReplacement: string := "__"

  /**
   * Java's String.replaceAll for a pattern that matches exactly the literal
   * `pat`: the string is scanned from the left, every occurrence found is
   * replaced by `rep`, and scanning resumes after the occurrence, so two
   * occurrences never overlap.
   */
  function ReplaceAll(s: string, pat: string, rep: string): string
    requires pat != []
    decreases |s|
  {
    if s == [] then []
    else if pat <= s then rep + ReplaceAll(s[|pat|..], pat, rep)
    else [s[0]] + ReplaceAll(s[1..], pat, rep)
  }

  /** escapeName: first every "_" becomes "__", then every "." becomes "_". */
  function EscapeName(value: string): string
  {
    ReplaceAll(ReplaceAll(value, "_", TemporaryReplacement), ".", Replacement)
  }

  /** unescapeName: first every "_" becomes ".", then every "__" becomes "_". */
  function UnescapeName(value: string): string
  {
    ReplaceAll(ReplaceAll(value, Replacement, "."), TemporaryReplacement, "_")
  }

  // ---------------------------------------------------------------------
  // Single-pass reference definitions

  /** Every occurrence of the character `c` in `s` replaced by `rep`, in one pass. */
  function Substitute(s: string, c: char, rep: string): string
    decreases |s|
  {
    if s == [] then [] else (if s[0] == c then rep else [s[0]]) + Substitute(s[1..], c, rep)
  }

  /** The per-character escape: '_' to "__", '.' to "_", anything else copied. */
  function EscapeChar(c: char): string
  {
    if c == '_' then "__" else if c == '.' then "_" else [c]
  }

  /** The single-pass escape, one EscapeChar per input character. */
  function Escaped(s: string): string
    decreases |s|
  {
    if s == [] then [] else EscapeChar(s[0]) + Escaped(s[1..])
  }

  // ---------------------------------------------------------------------
  // Facts about ReplaceAll and Substitute

  /** A one-character pattern makes ReplaceAll the single-pass Substitute. */
  lemma {:induction false} ReplaceAllOneChar(s: string, c: char, rep: string)
    ensures ReplaceAll(s, [c], rep) == Substitute(s, c, rep)
    decreases |s|
  {
    if s != [] {
      assert ([c] <= s) == (s[0] == c);
      ReplaceAllOneChar(s[1..], c, rep);
    }
  }

  /** ReplaceAll leaves a string alone when the pattern's first character does not occur in it. */
  lemma {:induction false} ReplaceAllAbsent(s: string, pat: string, rep: string)
    requires pat != [] && pat[0] !in s
    ensures ReplaceAll(s, pat, rep) == s
    decreases |s|
  {
    if s != [] {
      ReplaceAllAbsent(s[1..], pat, rep);
      assert [s[0]] + s[1..] == s;
    }
  }

  lemma {:induction false} SubstituteConcat(a: string, b: string, c: char, rep: string)
    ensures Substitute(a + b, c, rep) == Substitute(a, c, rep) + Substitute(b, c, rep)
    decreases |a|
  {
    if a == [] {
      assert a + b == b;
    } else {
      assert (a + b)[1..] == a[1..] + b;
      SubstituteConcat(a[1..], b, c, rep);
    }
  }

  /** After Substitute, `c` is gone unless the replacement brings it back. */
  lemma {:induction false} SubstituteRemoves(s: string, c: char, rep: string)
    requires c !in rep
    ensures c !in Substitute(s, c, rep)
    decreases |s|
  {
    if s != [] {
      SubstituteRemoves(s[1..], c, rep);
    }
  }

  lemma {:induction false} SubstituteLength(s: string, c: char, d: char)
    ensures |Substitute(s, c, [d])| == |s|
    decreases |s|
  {
    if s != [] {
      SubstituteLength(s[1..], c, d);
    }
  }

  // ---------------------------------------------------------------------
  // Facts about the single-pass escape

  /** Replacing '_' by "__" and then '.' by "_" is Escaped. */
  lemma {:induction false} TwoPassesAreEscaped(s: string)
    ensures Substitute(Substitute(s, '_', "__"), '.', "_") == Escaped(s)
    decreases |s|
  {
    if s != [] {
      var x := s[0];
      var first := if x == '_' then "__" else [x];
      SubstituteConcat(first, Substitute(s[1..], '_', "__"), '.', "_");
      assert Substitute(first, '.', "_") == EscapeChar(x);
      TwoPassesAreEscaped(s[1..]);
    }
  }

  lemma {:induction false} EscapedConcat(a: string, b: string)
    ensures Escaped(a + b) == Escaped(a) + Escaped(b)
    decreases |a|
  {
    if a == [] {
      assert a + b == b;
    } else {
      assert (a + b)[1..] == a[1..] + b;
      EscapedConcat(a[1..], b);
    }
  }

  lemma {:induction false} EscapedNoDot(s: string)
    ensures '.' !in Escaped(s)
    decreases |s|
  {
    if s != [] {
      EscapedNoDot(s[1..]);
    }
  }

  lemma {:induction false} EscapedLength(s: string)
    ensures |Escaped(s)| == |s| + multiset(s)['_']
    decreases |s|
  {
    if s != [] {
      assert s == [s[0]] + s[1..];
      assert multiset(s) == multiset{s[0]} + multiset(s[1..]);
      EscapedLength(s[1..]);
    }
  }

  lemma {:induction false} EscapedPassThrough(s: string)
    requires '_' !in s && '.' !in s
    ensures Escaped(s) == s
    decreases |s|
  {
    if s != [] {
      assert '_' !in s[1..] && '.' !in s[1..] by {
        forall i | 0 <= i < |s[1..]| ensures s[1..][i] != '_' && s[1..][i] != '.' {
          assert s[1..][i] == s[i + 1];
        }
      }
      EscapedPassThrough(s[1..]);
      assert [s[0]] + s[1..] == s;
    }
  }

  /** Without '_' in the input, unescaping's '_'-to-'.' pass undoes Escaped. */
  lemma {:induction false} SubstituteInvertsEscaped(s: string)
    requires '_' !in s
    ensures Substitute(Escaped(s), '_', ".") == s
    decreases |s|
  {
    if s != [] {
      assert '_' !in s[1..] by {
        forall i | 0 <= i < |s[1..]| ensures s[1..][i] != '_' {
          assert s[1..][i] == s[i + 1];
        }
      }
      SubstituteConcat(EscapeChar(s[0]), Escaped(s[1..]), '_', ".");
      SubstituteInvertsEscaped(s[1..]);
      assert [s[0]] + s[1..] == s;
    }
  }

  // ---------------------------------------------------------------------
  // Properties of escapeName and unescapeName

  /** The two replaceAll passes of escapeName are the single-pass character mapping. */
  lemma EscapeNameSinglePass(s: string)
    ensures EscapeName(s) == Escaped(s)
  {
    ReplaceAllOneChar(s, '_', "__");
    ReplaceAllOneChar(Substitute(s, '_', "__"), '.', "_");
    TwoPassesAreEscaped(s);
  }

  lemma EscapeNameConcat(a: string, b: string)
    ensures EscapeName(a + b) == EscapeName(a) + EscapeName(b)
  {
    EscapeNameSinglePass(a);
    EscapeNameSinglePass(b);
    EscapeNameSinglePass(a + b);
    EscapedConcat(a, b);
  }

  /** An escaped name never contains the path separator. */
  lemma EscapeNameNoDot(s: string)
    ensures '.' !in EscapeName(s)
  {
    EscapeNameSinglePass(s);
    EscapedNoDot(s);
  }

  /** Escaping lengthens a name by exactly its number of '_'. */
  lemma EscapeNameLength(s: string)
    ensures |EscapeName(s)| == |s| + multiset(s)['_']
  {
    EscapeNameSinglePass(s);
    EscapedLength(s);
  }

  /** Names without '_' or '.' (the empty name among them) are not changed. */
  lemma EscapeNamePassThrough(s: string)
    requires '_' !in s && '.' !in s
    ensures EscapeName(s) == s
  {
    EscapeNameSinglePass(s);
    EscapedPassThrough(s);
  }

  /**
   * unescapeName is "every '_' becomes '.'": its first pass leaves no '_',
   * so the second pass never finds "__".
   */
  lemma UnescapeNameSinglePass(v: string)
    ensures ReplaceAll(v, "_", ".") == Substitute(v, '_', ".")
    ensures '_' !in ReplaceAll(v, "_", ".")
    ensures UnescapeName(v) == ReplaceAll(v, "_", ".")
    ensures |UnescapeName(v)| == |v|
  {
    ReplaceAllOneChar(v, '_', ".");
    SubstituteRemoves(v, '_', ".");
    ReplaceAllAbsent(Substitute(v, '_', "."), "__", "_");
    SubstituteLength(v, '_', '.');
  }

  /** unescapeName(escapeName(s)) gives s back exactly when s contains no '_'. */
  lemma RoundTrip(s: string)
    ensures UnescapeName(EscapeName(s)) == s <==> '_' !in s
  {
    EscapeNameSinglePass(s);
    UnescapeNameSinglePass(Escaped(s));
    if '_' in s {
      EscapedLength(s);
      assert multiset(s)['_'] > 0;
    } else {
      SubstituteInvertsEscaped(s);
    }
  }

  /** The round trip fails on "a_b": it comes back as "a..b". */
  lemma RoundTripCounterexample()
    ensures EscapeName("a_b") == "a__b"
    ensures UnescapeName("a__b") == "a..b"
  {
    EscapeNameSinglePass("a_b");
    assert Escaped("a_b") == "a__b" by {
      assert "a_b"[1..] == "_b";
      assert "_b"[1..] == "b";
    }
    UnescapeNameSinglePass("a__b");
    assert Substitute("a__b", '_', ".") == "a..b" by {
      assert "a__b"[1..] == "__b";
      assert "__b"[1..] == "_b";
      assert "_b"[1..] == "b";
    }
  }

  /** escapeName is not injective: "_." and "._" are both escaped to "___". */
  lemma EscapeNameNotInjective()
    ensures EscapeName("_.") == "___"
    ensures EscapeName("._") == "___"
  {
    EscapeNameSinglePass("_.");
    EscapeNameSinglePass("._");
    assert "_."[1..] == ".";
    assert "._"[1..] == "_";
  }

  /** On names without '_', escapeName is injective. */
  lemma EscapeNameInjectiveWithoutUnderscore(a: string, b: string)
    requires '_' !in a && '_' !in b
    ensures EscapeName(a) == EscapeName(b) <==> a == b
  {
    RoundTrip(a);
    RoundTrip(b);
  }
}
