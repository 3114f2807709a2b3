/**
 * JavaScript strings as the listing code uses them: sequences of UTF-16 code
 * units, with `endsWith`, `substring` and the relational `<` that
 * `Array.prototype.sort` applies when it is given no comparator.
 */
module JsString {

  /** One UTF-16 code unit; a JavaScript string is a sequence of these. */
  type CodeUnit = c: int | 0 <= c < 0x1_0000

  type Str = seq<CodeUnit>

  /** The code unit of '/'. */
  const Slash: CodeUnit := 0x2F

  /** `s.endsWith(suffix)` */
  predicate EndsWith(s: Str, suffix: Str) {
    |suffix| <= |s| && s[|s| - |suffix|..] == suffix
  }

  /** `s.startsWith(prefix)` */
  predicate StartsWith(s: Str, prefix: Str) {
    |prefix| <= |s| && s[..|prefix|] == prefix
  }

  /**
   * `s.substring(start)` for a non-negative `start`: the engine clamps `start`
   * to the length of `s`, so a start past the end gives the empty string.
   * The result is the suffix of `s` that is `start` code units shorter.
   */
  function Substring(s: Str, start: nat): (r: Str)
    ensures |r| == if start <= |s| then |s| - start else 0
    ensures EndsWith(s, r)
  {
    if start <= |s| then s[start..] else []
  }

  /** Removing a prefix that is there and putting it back gives the string again. */
  lemma SubstringAfterPrefix(s: Str, prefix: Str)
    requires StartsWith(s, prefix)
    ensures prefix + Substring(s, |prefix|) == s
  {
  }

  /**
   * `a <= b` under JavaScript's string comparison: code unit by code unit,
   * a proper prefix coming first. There is no locale and no numeric collation.
   */
  predicate Below(a: Str, b: Str)
    decreases |a|
  {
    a == [] || (b != [] && (a[0] < b[0] || (a[0] == b[0] && Below(a[1..], b[1..]))))
  }

  /**
   * `a < b` as the ECMAScript IsLessThan abstract operation defines it for two
   * strings: `a` is a proper prefix of `b`, or at the first code unit where
   * they differ, `a`'s is the smaller.
   */
  predicate LessThan(a: Str, b: Str) {
    (|a| < |b| && a == b[..|a|])
    || exists k :: 0 <= k < |a| && k < |b| && a[..k] == b[..k] && a[k] < b[k]
  }

  lemma {:induction false} BelowIsLessThanOrEqual(a: Str, b: Str)
    ensures Below(a, b) <==> a == b || LessThan(a, b)
  {
    if Below(a, b) {
      BelowGivesLessThanOrEqual(a, b);
    }
    if a == b {
      BelowReflexive(a);
    } else if LessThan(a, b) {
      LessThanGivesBelow(a, b);
    }
  }

  lemma {:induction false} BelowGivesLessThanOrEqual(a: Str, b: Str)
    requires Below(a, b)
    ensures a == b || LessThan(a, b)
    decreases |a|
  {
    if a == [] {
      if b != [] {
        assert |a| < |b| && a == b[..|a|];
      }
    } else if a[0] < b[0] {
      assert a[..0] == b[..0];
    } else {
      BelowGivesLessThanOrEqual(a[1..], b[1..]);
      if a[1..] == b[1..] {
        assert a == [a[0]] + a[1..] && b == [b[0]] + b[1..];
      } else if |a[1..]| < |b[1..]| && a[1..] == b[1..][..|a[1..]|] {
        assert a == b[..|a|];
      } else {
        var k :| 0 <= k < |a[1..]| && k < |b[1..]| && a[1..][..k] == b[1..][..k] && a[1..][k] < b[1..][k];
        assert a[..k + 1] == [a[0]] + a[1..][..k];
        assert b[..k + 1] == [b[0]] + b[1..][..k];
      }
    }
  }

  lemma {:induction false} LessThanGivesBelow(a: Str, b: Str)
    requires LessThan(a, b)
    ensures Below(a, b)
    decreases |a|
  {
    if a != [] {
      if |a| < |b| && a == b[..|a|] {
        assert a[0] == b[0];
        assert a[1..] == b[1..][..|a[1..]|];
        LessThanGivesBelow(a[1..], b[1..]);
      } else {
        var k :| 0 <= k < |a| && k < |b| && a[..k] == b[..k] && a[k] < b[k];
        if k > 0 {
          assert a[0] == a[..k][0] == b[..k][0] == b[0];
          assert a[1..][..k - 1] == a[..k][1..] && b[1..][..k - 1] == b[..k][1..];
          assert a[1..][k - 1] == a[k] && b[1..][k - 1] == b[k];
          LessThanGivesBelow(a[1..], b[1..]);
        }
      }
    }
  }

  lemma {:induction false} BelowReflexive(a: Str)
    ensures Below(a, a)
    decreases |a|
  {
    if a != [] {
      BelowReflexive(a[1..]);
    }
  }

  lemma {:induction false} BelowTotal(a: Str, b: Str)
    ensures Below(a, b) || Below(b, a)
    decreases |a|
  {
    if a != [] && b != [] && a[0] == b[0] {
      BelowTotal(a[1..], b[1..]);
    }
  }

  lemma {:induction false} BelowAntisymmetric(a: Str, b: Str)
    requires Below(a, b) && Below(b, a)
    ensures a == b
    decreases |a|
  {
    if a != [] {
      BelowAntisymmetric(a[1..], b[1..]);
      assert a == [a[0]] + a[1..] && b == [b[0]] + b[1..];
    }
  }

  lemma {:induction false} BelowTransitive(a: Str, b: Str, c: Str)
    requires Below(a, b) && Below(b, c)
    ensures Below(a, c)
    decreases |a|
  {
    if a != [] && a[0] == b[0] && b[0] == c[0] {
      BelowTransitive(a[1..], b[1..], c[1..]);
    }
  }
}
