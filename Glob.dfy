/**
 * Wildcard matching as `Path.glob` does it inside one directory, for
 * patterns whose only metacharacter is `*`.
 */
module Glob {
  import opened Text

  predicate NoStar(s: string) {
    '*' !in s
  }

  /** `name` matches `pattern`: `*` stands for any run of characters, every other character for itself. */
  predicate Match(pattern: string, name: string)
    decreases |pattern| + |name|
  {
    if pattern == [] then name == []
    else if pattern[0] == '*' then Match(pattern[1..], name) || (name != [] && Match(pattern, name[1..]))
    else name != [] && name[0] == pattern[0] && Match(pattern[1..], name[1..])
  }

  /** `list(directory.glob(pattern))`: the entries of the listing that match, in listing order. */
  function Matches(pattern: string, listing: seq<string>): (ms: seq<string>)
    ensures forall k | 0 <= k < |ms| :: ms[k] in listing && Match(pattern, ms[k])
    ensures forall n | n in listing && Match(pattern, n) :: n in ms
    ensures |ms| <= |listing|
  {
    if listing == [] then []
    else (if Match(pattern, listing[0]) then [listing[0]] else []) + Matches(pattern, listing[1..])
  }

  /** `listing[j]` is the first listed name that matches `pattern`. */
  predicate FirstListedMatch(pattern: string, listing: seq<string>, j: int) {
    && 0 <= j < |listing| && Match(pattern, listing[j])
    && forall i | 0 <= i < j :: !Match(pattern, listing[i])
  }

  /** The glob result keeps the listing order: its head is the first listed match. */
  lemma {:induction false} MatchesHead(pattern: string, listing: seq<string>, j: int)
    requires FirstListedMatch(pattern, listing, j)
    ensures Matches(pattern, listing) != [] && Matches(pattern, listing)[0] == listing[j]
  {
    if j > 0 {
      assert FirstListedMatch(pattern, listing[1..], j - 1) by {
        assert forall i | 0 <= i < j - 1 :: listing[1..][i] == listing[i + 1];
      }
      MatchesHead(pattern, listing[1..], j - 1);
    }
  }

  /** A non-empty glob result starts with the first listed match. */
  lemma {:induction false} MatchesHeadListed(pattern: string, listing: seq<string>)
    requires Matches(pattern, listing) != []
    ensures exists j :: FirstListedMatch(pattern, listing, j) && Matches(pattern, listing)[0] == listing[j]
  {
    if Match(pattern, listing[0]) {
      assert FirstListedMatch(pattern, listing, 0);
    } else {
      MatchesHeadListed(pattern, listing[1..]);
      var j :| FirstListedMatch(pattern, listing[1..], j) && Matches(pattern, listing[1..])[0] == listing[1..][j];
      assert FirstListedMatch(pattern, listing, j + 1) by {
        forall i | 1 <= i < j + 1
          ensures !Match(pattern, listing[i])
        {
          assert listing[i] == listing[1..][i - 1];
        }
      }
    }
  }

  /** A pattern without `*` matches exactly itself. */
  lemma {:induction false} MatchLiteral(p: string, s: string)
    requires NoStar(p)
    ensures Match(p, s) <==> s == p
  {
    if p != [] && s != [] {
      MatchLiteral(p[1..], s[1..]);
      if s[0] == p[0] && s[1..] == p[1..] {
        assert s == [s[0]] + s[1..] && p == [p[0]] + p[1..];
      }
    }
  }

  /** Whatever matches `p + lit`, for a `*`-free `lit`, ends with `lit`. */
  lemma {:induction false} MatchEndsWith(p: string, lit: string, s: string)
    requires NoStar(lit)
    requires Match(p + lit, s)
    ensures EndsWith(s, lit)
    decreases |p| + |s|
  {
    if p == [] {
      assert p + lit == lit;
      MatchLiteral(lit, s);
    } else {
      assert (p + lit)[1..] == p[1..] + lit;
      if p[0] == '*' {
        if Match(p[1..] + lit, s) {
          MatchEndsWith(p[1..], lit, s);
        } else {
          MatchEndsWith(p, lit, s[1..]);
          assert s[1..][|s[1..]| - |lit|..] == s[|s| - |lit|..];
        }
      } else {
        MatchEndsWith(p[1..], lit, s[1..]);
        assert s[1..][|s[1..]| - |lit|..] == s[|s| - |lit|..];
      }
    }
  }

  /** A leading `*` absorbs any prefix. */
  lemma {:induction false} StarAbsorbs(q: string, x: string, y: string)
    requires Match(q, y)
    ensures Match(['*'] + q, x + y)
  {
    assert (['*'] + q)[1..] == q;
    if x == [] {
      assert x + y == y;
    } else {
      assert (x + y)[1..] == x[1..] + y;
      StarAbsorbs(q, x[1..], y);
    }
  }

  /** `*lit` (with `lit` free of `*`) matches exactly the names that end with `lit`. */
  lemma MatchStarSuffix(lit: string, s: string)
    requires NoStar(lit)
    ensures Match(['*'] + lit, s) <==> EndsWith(s, lit)
  {
    if Match(['*'] + lit, s) {
      MatchEndsWith(['*'], lit, s);
    }
    if EndsWith(s, lit) {
      MatchLiteral(lit, lit);
      StarAbsorbs(lit, s[..|s| - |lit|], lit);
      assert s[..|s| - |lit|] + lit == s;
    }
  }
}
