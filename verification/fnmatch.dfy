/**
 Shell-style wildcard matching as `fnmatch.fnmatchcase` performs it for
 patterns built from literal characters, `*` and `?`: `*` matches any run of
 characters (slashes and newlines included), `?` exactly one character, and
 the whole name must be matched.
 */
module Fnmatch {
  import Text

  /** Whether `name` matches the wildcard pattern `pat`. */
  predicate Matches(pat: string, name: string)
    decreases |pat| + |name|
  {
    if |pat| == 0 then |name| == 0
    else if pat[0] == '*' then Matches(pat[1..], name) || (|name| > 0 && Matches(pat, name[1..]))
    else if pat[0] == '?' then |name| > 0 && Matches(pat[1..], name[1..])
    else |name| > 0 && name[0] == pat[0] && Matches(pat[1..], name[1..])
  }

  /** A pattern without wildcards. */
  predicate Literal(pat: string)
  {
    '*' !in pat && '?' !in pat
  }

  /** A literal pattern matches exactly itself. */
  lemma {:induction false} LiteralMatches(lit: string, name: string)
    requires Literal(lit)
    ensures Matches(lit, name) <==> name == lit
    decreases |lit|
  {
    if |lit| > 0 && |name| > 0 {
      LiteralMatches(lit[1..], name[1..]);
      if name[0] == lit[0] && name[1..] == lit[1..] {
        assert name == [name[0]] + name[1..] && lit == [lit[0]] + lit[1..];
      }
    }
  }

  /** `*` matches every name. */
  lemma {:induction false} StarMatchesAll(name: string)
    ensures Matches("*", name)
    decreases |name|
  {
    if |name| > 0 {
      StarMatchesAll(name[1..]);
    }
  }

  /** A leading `*` matches when the rest of the pattern matches some suffix
      of the name, and only then. */
  lemma {:induction false} LeadingStar(rest: string, name: string)
    ensures Matches(['*'] + rest, name) <==> exists i :: 0 <= i <= |name| && Matches(rest, name[i..])
    decreases |name|
  {
    var pat := ['*'] + rest;
    assert pat[1..] == rest;
    if |name| == 0 {
      assert name[0..] == name;
    } else {
      LeadingStar(rest, name[1..]);
      if exists i :: 0 <= i <= |name| && Matches(rest, name[i..]) {
        var i :| 0 <= i <= |name| && Matches(rest, name[i..]);
        if i == 0 {
          assert name[0..] == name;
        } else {
          assert name[1..][i - 1..] == name[i..];
        }
      }
      if Matches(pat, name[1..]) {
        var j :| 0 <= j <= |name[1..]| && Matches(rest, name[1..][j..]);
        assert name[1..][j..] == name[j + 1..];
      }
      if Matches(rest, name) {
        assert name[0..] == name;
      }
    }
  }

  /** A literal followed by `*` matches exactly the names it starts. */
  lemma {:induction false} LiteralThenStar(lit: string, name: string)
    requires Literal(lit)
    ensures Matches(lit + "*", name) <==> Text.StartsWith(name, lit)
    decreases |lit|
  {
    if |lit| == 0 {
      assert lit + "*" == "*";
      StarMatchesAll(name);
    } else {
      assert (lit + "*")[1..] == lit[1..] + "*";
      if |name| > 0 {
        LiteralThenStar(lit[1..], name[1..]);
        if Text.StartsWith(name, lit) {
          assert name[1..][..|lit| - 1] == name[..|lit|][1..];
        }
        if name[0] == lit[0] && Text.StartsWith(name[1..], lit[1..]) {
          assert name[..|lit|] == [name[0]] + name[1..][..|lit| - 1];
          assert lit == [lit[0]] + lit[1..];
        }
      }
    }
  }

  /** `*` and a literal match exactly the names it ends. */
  lemma StarThenLiteral(lit: string, name: string)
    requires Literal(lit)
    ensures Matches(['*'] + lit, name) <==> Text.EndsWith(name, lit)
  {
    LeadingStar(lit, name);
    if Text.EndsWith(name, lit) {
      LiteralMatches(lit, name[|name| - |lit|..]);
    }
    if exists i :: 0 <= i <= |name| && Matches(lit, name[i..]) {
      var i :| 0 <= i <= |name| && Matches(lit, name[i..]);
      LiteralMatches(lit, name[i..]);
      assert |name| - |lit| == i;
    }
  }

  /** A literal between two stars matches exactly the names containing it. */
  lemma StarLiteralStar(lit: string, name: string)
    requires Literal(lit)
    ensures Matches(['*'] + lit + "*", name) <==> Text.Contains(name, lit)
  {
    assert ['*'] + lit + "*" == ['*'] + (lit + "*");
    LeadingStar(lit + "*", name);
    if Text.Contains(name, lit) {
      var i :| 0 <= i <= |name| - |lit| && Text.StartsWith(name[i..], lit);
      LiteralThenStar(lit, name[i..]);
    }
    if exists i :: 0 <= i <= |name| && Matches(lit + "*", name[i..]) {
      var i :| 0 <= i <= |name| && Matches(lit + "*", name[i..]);
      LiteralThenStar(lit, name[i..]);
      assert 0 <= i <= |name| - |lit| && Text.StartsWith(name[i..], lit);
    }
  }
}
