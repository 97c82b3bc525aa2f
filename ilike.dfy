/** PostgreSQL's ILIKE as db_utils.py uses it for the name search: the
    pattern `%fragment%` matched case-insensitively against a name. */
module ILike {

  /** Lower case for ASCII letters; every other character is its own case. */
  function Lower(c: char): char
  {
    if 'A' <= c <= 'Z' then (c as int - 'A' as int + 'a' as int) as char else c
  }

  /** `s ILIKE p` with the default escape character: `%` matches any run of
      characters, `_` exactly one, a backslash makes the next character
      literal, and letters compare without regard to case. A pattern that
      ends in a lone backslash is matched here as a literal backslash, where
      PostgreSQL raises "LIKE pattern must not end with escape character";
      the search never meets that case, because `Pattern` always ends in
      `%`. */
  predicate Like(p: string, s: string)
    decreases |p| + |s|
  {
    if p == [] then s == []
    else if p[0] == '%' then Like(p[1..], s) || (s != [] && Like(p, s[1..]))
    else if p[0] == '_' then s != [] && Like(p[1..], s[1..])
    else if p[0] == '\\' && |p| >= 2 then s != [] && Lower(s[0]) == Lower(p[1]) && Like(p[2..], s[1..])
    else s != [] && Lower(s[0]) == Lower(p[0]) && Like(p[1..], s[1..])
  }

  /** The search pattern built from a name fragment: f"%{name}%". */
  function Pattern(fragment: string): (p: string)
    ensures |p| == |fragment| + 2 && p[0] == '%' && p[|p| - 1] == '%'
    ensures p[1..|p| - 1] == fragment
  {
    "%" + fragment + "%"
  }

  predicate IsMeta(c: char)
  {
    c == '%' || c == '_' || c == '\\'
  }

  /** A fragment that ILIKE reads character for character. */
  predicate Literal(fragment: string)
  {
    forall i :: 0 <= i < |fragment| ==> !IsMeta(fragment[i])
  }

  /** s begins with f when case is ignored. */
  predicate PrefixIgnoringCase(f: string, s: string)
  {
    |f| <= |s| && forall i :: 0 <= i < |f| ==> Lower(s[i]) == Lower(f[i])
  }

  /** f occurs somewhere in s when case is ignored. */
  predicate ContainsIgnoringCase(s: string, f: string)
    decreases |s|
  {
    PrefixIgnoringCase(f, s) || (s != [] && ContainsIgnoringCase(s[1..], f))
  }

  /** A lone `%` matches every string. */
  lemma {:induction false} PercentMatchesAll(s: string)
    ensures Like("%", s)
    decreases |s|
  {
    if s != [] {
      PercentMatchesAll(s[1..]);
    }
  }

  /** `f%` matches exactly the strings that begin with f, ignoring case. */
  lemma {:induction false} LiteralThenPercent(f: string, s: string)
    requires Literal(f)
    ensures Like(f + "%", s) <==> PrefixIgnoringCase(f, s)
    decreases |f|
  {
    if f == [] {
      assert f + "%" == "%";
      PercentMatchesAll(s);
    } else {
      var p := f + "%";
      assert p[0] == f[0] && !IsMeta(f[0]);
      assert p[1..] == f[1..] + "%";
      if s != [] {
        LiteralThenPercent(f[1..], s[1..]);
        if PrefixIgnoringCase(f[1..], s[1..]) && Lower(s[0]) == Lower(f[0]) {
          forall i | 0 <= i < |f| ensures Lower(s[i]) == Lower(f[i]) {
            if i > 0 {
              assert s[1..][i - 1] == s[i] && f[1..][i - 1] == f[i];
            }
          }
        }
        if PrefixIgnoringCase(f, s) {
          assert Lower(s[0]) == Lower(f[0]);
          forall i | 0 <= i < |f[1..]| ensures Lower(s[1..][i]) == Lower(f[1..][i]) {
            assert s[1..][i] == s[i + 1] && f[1..][i] == f[i + 1];
          }
        }
      }
    }
  }

  /** The name search of db_utils.py: for a fragment without ILIKE
      metacharacters, `name ILIKE '%fragment%'` holds exactly when the
      fragment occurs in the name, ignoring case. */
  lemma {:induction false} PatternMeansSubstring(fragment: string, name: string)
    requires Literal(fragment)
    ensures Like(Pattern(fragment), name) <==> ContainsIgnoringCase(name, fragment)
    decreases |name|
  {
    var p := Pattern(fragment);
    assert p[0] == '%' && p[1..] == fragment + "%";
    LiteralThenPercent(fragment, name);
    if name != [] {
      PatternMeansSubstring(fragment, name[1..]);
    }
  }

  /** The search pattern for "ann" is `%` followed by `ann%`. */
  lemma AnnPattern()
    ensures Literal("ann")
    ensures Pattern("ann")[0] == '%' && Pattern("ann")[1..] == "ann" + "%"
  {
  }

  /** The search for "ann" finds "Ann Smith". */
  lemma FindsAnnSmith()
    ensures Like(Pattern("ann"), "Ann Smith")
  {
    AnnPattern();
    LiteralThenPercent("ann", "Ann Smith");
    assert Lower('A') == 'a';
  }

  /** The search for "ann" finds "Hannah", one character in. */
  lemma FindsHannah()
    ensures Like(Pattern("ann"), "Hannah")
  {
    AnnPattern();
    assert "Hannah"[1..] == "annah";
    LiteralThenPercent("ann", "annah");
    assert Like(Pattern("ann"), "annah");
  }

  /** The search for "ann" finds "annabelle", whatever follows the fragment. */
  lemma FindsAnnabelle()
    ensures Like(Pattern("ann"), "annabelle")
  {
    AnnPattern();
    LiteralThenPercent("ann", "annabelle");
  }

  /** The search for "ann" does not find "Bob". */
  lemma SkipsBob()
    ensures !Like(Pattern("ann"), "Bob")
  {
    AnnPattern();
    PatternMeansSubstring("ann", "Bob");
    assert "Bob"[1..] == "ob" && "ob"[1..] == "b" && "b"[1..] == [];
    assert Lower('B') == 'b';
    assert !PrefixIgnoringCase("ann", "Bob");
    assert !PrefixIgnoringCase("ann", "ob");
    assert !PrefixIgnoringCase("ann", "b");
    assert !PrefixIgnoringCase("ann", []);
  }
}
