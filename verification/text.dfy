/** Java string operations used by the forms and the SQL text operators used by
    the repositories: `String.trim`, `String.contains`, `LIKE` and the order
    of `ORDER BY` on names. */
module Text {

  /** A character `String.trim` strips from either end: code point at most U+0020. */
  predicate IsTrimmable(c: char) {
    c <= ' '
  }

  /** `trim`'s forward scan: the first index from `st` on whose character is
      not trimmable. */
  function TrimLow(s: string, st: nat): (r: nat)
    requires st <= |s|
    ensures st <= r <= |s|
    ensures forall k :: st <= k < r ==> IsTrimmable(s[k])
    ensures r == |s| || !IsTrimmable(s[r])
    decreases |s| - st
  {
    if st < |s| && IsTrimmable(s[st]) then TrimLow(s, st + 1) else st
  }

  /** `trim`'s backward scan: lowers the end `len` past trimmable characters,
      never below `st`. */
  function TrimHigh(s: string, st: nat, len: nat): (r: nat)
    requires st <= len <= |s|
    ensures st <= r <= len
    ensures forall k :: r <= k < len ==> IsTrimmable(s[k])
    ensures r == st || !IsTrimmable(s[r - 1])
    decreases len
  {
    if st < len && IsTrimmable(s[len - 1]) then TrimHigh(s, st, len - 1) else len
  }

  /** Java's `String.trim`: the text between the two scans. Exactly the
      leading and the trailing trimmable characters are cut, so what is kept
      starts and ends with a character that is not trimmable. */
  function Trim(s: string): (r: string)
    ensures var lo := TrimLow(s, 0);
      && lo + |r| <= |s| && r == s[lo..lo + |r|]
      && (forall i :: 0 <= i < lo ==> IsTrimmable(s[i]))
      && (forall i :: lo + |r| <= i < |s| ==> IsTrimmable(s[i]))
      && (r == [] || (!IsTrimmable(r[0]) && !IsTrimmable(r[|r| - 1])))
  {
    var lo := TrimLow(s, 0);
    s[lo..TrimHigh(s, lo, |s|)]
  }

  /** `s.trim().isEmpty()`, the "required field" test of both forms. */
  predicate IsBlank(s: string) {
    Trim(s) == []
  }

  /** A string is blank exactly when every one of its characters is trimmable. */
  lemma BlankIff(s: string)
    ensures IsBlank(s) <==> forall i :: 0 <= i < |s| ==> IsTrimmable(s[i])
  {
    var lo := TrimLow(s, 0);
    if !IsBlank(s) {
      assert !IsTrimmable(s[lo]);
    }
  }

  /** Trimming is idempotent, so a term that was already trimmed is left alone. */
  lemma TrimIdempotent(s: string)
    ensures Trim(Trim(s)) == Trim(s)
  {
    var r := Trim(s);
    if r != [] {
      assert TrimLow(r, 0) == 0;
      assert TrimHigh(r, 0, |r|) == |r|;
    }
  }

  /** A character that `trim` never strips occurs in the trimmed text exactly
      when it occurs in the original. */
  lemma TrimKeeps(s: string, c: char)
    requires !IsTrimmable(c)
    ensures c in Trim(s) <==> c in s
  {
    var lo := TrimLow(s, 0);
    var r := Trim(s);
    if c in s {
      var k :| 0 <= k < |s| && s[k] == c;
      assert lo <= k < lo + |r|;
      assert r[k - lo] == c;
    }
  }

  /** `t` is a prefix of `s`. */
  predicate IsPrefix(t: string, s: string) {
    |t| <= |s| && s[..|t|] == t
  }

  /** Java's `s.contains(t)`: `t` occurs somewhere in `s`. */
  predicate Contains(s: string, t: string)
    decreases |s|
  {
    IsPrefix(t, s) || (s != [] && Contains(s[1..], t))
  }

  /** Containment of a one-character string is membership of that character. */
  lemma {:induction false} ContainsChar(s: string, c: char)
    ensures Contains(s, [c]) <==> c in s
  {
    if s != [] {
      ContainsChar(s[1..], c);
      assert s == [s[0]] + s[1..];
    }
  }

  /** SQL `s LIKE p` without an escape character: `%` matches any run of
      characters, `_` exactly one, any other character itself. */
  predicate Like(s: string, p: string)
    decreases |s| + |p|
  {
    if p == [] then s == []
    else if p[0] == '%' then Like(s, p[1..]) || (s != [] && Like(s[1..], p))
    else s != [] && (p[0] == '_' || p[0] == s[0]) && Like(s[1..], p[1..])
  }

  /** A search term with no wildcard character in it. */
  predicate IsLiteral(t: string) {
    forall i :: 0 <= i < |t| ==> t[i] != '%' && t[i] != '_'
  }

  /** The pattern `%` matches every string. */
  lemma {:induction false} LikeAnything(s: string)
    ensures Like(s, "%")
  {
    if s != [] {
      LikeAnything(s[1..]);
    }
  }

  /** For a literal `t`, the pattern `t%` is a prefix test. */
  lemma {:induction false} LikePrefix(s: string, t: string)
    requires IsLiteral(t)
    ensures Like(s, t + "%") <==> IsPrefix(t, s)
  {
    if t == [] {
      assert t + "%" == "%";
      LikeAnything(s);
    } else {
      assert (t + "%")[1..] == t[1..] + "%";
      assert IsLiteral(t[1..]) by {
        forall i | 0 <= i < |t[1..]|
          ensures t[1..][i] != '%' && t[1..][i] != '_'
        {
          assert t[1..][i] == t[i + 1];
        }
      }
      if s != [] {
        LikePrefix(s[1..], t[1..]);
        if IsPrefix(t, s) {
          assert s[1..][..|t[1..]|] == s[..|t|][1..];
        }
        if t[0] == s[0] && IsPrefix(t[1..], s[1..]) {
          assert s[..|t|] == [s[0]] + s[1..][..|t[1..]|];
        }
      }
    }
  }

  /** For a literal `t`, the pattern `%t%` built by the repositories'
      name search is exactly substring containment. */
  lemma {:induction false} LikeContains(s: string, t: string)
    requires IsLiteral(t)
    ensures Like(s, "%" + t + "%") <==> Contains(s, t)
  {
    var p := "%" + t + "%";
    assert p[0] == '%';
    assert p[1..] == t + "%";
    LikePrefix(s, t);
    if s != [] {
      LikeContains(s[1..], t);
    }
  }

  /** Wildcards in a term are live: the term `_` finds a name that does not
      contain the character `_` (see `UnderscoreAny` for the general case). */
  lemma UnderscoreIsWildcard()
    ensures Like("ab", "%" + "_" + "%") && !Contains("ab", "_")
  {
    assert "%" + "_" + "%" == "%_%";
    LikeAnything("b");
    assert Like("ab", "_%");
    assert !Contains("b", "_");
  }

  /** `%_%` matches exactly the non-empty texts: an `_` in a term stands for
      any one character. */
  lemma UnderscoreAny(s: string)
    ensures Like(s, "%_%") <==> s != []
  {
    if s != [] {
      LikeAnything(s[1..]);
      assert Like(s, "_%");
    }
  }

  /** Lexicographic order by code point: the model's collation for
      `ORDER BY name`. */
  predicate StrLe(a: string, b: string)
    decreases |a|
  {
    a == [] || (b != [] && (a[0] < b[0] || (a[0] == b[0] && StrLe(a[1..], b[1..]))))
  }

  /** Strictly before in the collation. */
  predicate StrLt(a: string, b: string) {
    StrLe(a, b) && a != b
  }

  lemma {:induction false} StrLeTotal(a: string, b: string)
    ensures StrLe(a, b) || StrLe(b, a)
  {
    if a != [] && b != [] && a[0] == b[0] {
      StrLeTotal(a[1..], b[1..]);
    }
  }

  lemma {:induction false} StrLeTransitive(a: string, b: string, c: string)
    requires StrLe(a, b) && StrLe(b, c)
    ensures StrLe(a, c)
  {
    if a != [] && b != [] && c != [] && a[0] == b[0] && b[0] == c[0] {
      StrLeTransitive(a[1..], b[1..], c[1..]);
    }
  }

  lemma {:induction false} StrLeAntisymmetric(a: string, b: string)
    requires StrLe(a, b) && StrLe(b, a)
    ensures a == b
  {
    if a != [] && b != [] {
      StrLeAntisymmetric(a[1..], b[1..]);
      assert a == [a[0]] + a[1..];
      assert b == [b[0]] + b[1..];
    }
  }
}
