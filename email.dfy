/** The contact form's e-mail shape check, the regular expression
    ^[^\s@]+@[^\s@]+\.[^\s@]+$ : a non-empty local part, one '@', and a
    domain with a '.' that has at least one character on either side. */
module Email {
  import opened Text

  /** A run of characters matched by [^\s@]: no white space and no '@'. */
  predicate Plain(s: string) {
    forall i :: 0 <= i < |s| ==> !IsSpace(s[i]) && s[i] != '@'
  }

  /** The address is local@host.tld with three non-empty plain runs. */
  predicate SplitsAs(email: string, local: string, host: string, tld: string) {
    && email == local + "@" + host + "." + tld
    && |local| > 0 && |host| > 0 && |tld| > 0
    && Plain(local) && Plain(host) && Plain(tld)
  }

  /** The regular expression read declaratively: the address splits into
      three non-empty plain runs `local`, `host`, `tld` as local@host.tld. */
  ghost predicate MatchesPattern(email: string) {
    exists local: string, host: string, tld: string :: SplitsAs(email, local, host, tld)
  }

  /** isValidEmail, computed by locating the '@' and then a '.' strictly
      inside the domain. */
  function IsValidEmail(email: string): (ok: bool)
    ensures ok ==> '@' in email && |email| >= 5
  {
    var at := IndexOf(email, "@");
    if at <= 0 then false
    else
      assert email[at..at + 1] == "@";
      var domain := email[at + 1..];
      && Plain(email[..at])
      && Plain(domain)
      && exists i | 1 <= i < |domain| - 1 :: domain[i] == '.'
  }

  /** A slice of a plain run is plain. */
  lemma PlainSlice(s: string, lo: int, hi: int)
    requires Plain(s) && 0 <= lo <= hi <= |s|
    ensures Plain(s[lo..hi])
  {
    forall k | 0 <= k < hi - lo ensures !IsSpace(s[lo..hi][k]) && s[lo..hi][k] != '@' {
      assert s[lo..hi][k] == s[lo + k];
    }
  }

  /** An '@' at `at` with plain text on both sides, and a '.' at `dot`
      with text on both sides of it after the '@', split the address. */
  lemma SplitAround(email: string, at: int, dot: int)
    requires 0 < at && at + 1 < dot < |email| - 1
    requires email[at] == '@' && email[dot] == '.'
    requires Plain(email[..at]) && Plain(email[at + 1..])
    ensures SplitsAs(email, email[..at], email[at + 1..dot], email[dot + 1..])
  {
    var domain := email[at + 1..];
    PlainSlice(domain, 0, dot - at - 1);
    PlainSlice(domain, dot - at, |domain|);
    assert domain[..dot - at - 1] == email[at + 1..dot];
    assert domain[dot - at..] == email[dot + 1..];
    assert email == email[..at] + "@" + email[at + 1..dot] + "." + email[dot + 1..];
  }

  /** Every address the computed check accepts has the pattern's shape. */
  lemma ValidEmailMatchesPattern(email: string)
    requires IsValidEmail(email)
    ensures MatchesPattern(email)
  {
    var at := IndexOf(email, "@");
    var domain := email[at + 1..];
    assert email[at..at + 1] == "@";
    var i :| 1 <= i < |domain| - 1 && domain[i] == '.';
    SplitAround(email, at, at + 1 + i);
  }

  /** The first '@' of local@host.tld sits right after `local`. */
  lemma FirstAtAfterLocal(email: string, local: string, rest: string)
    requires email == local + "@" + rest && Plain(local)
    ensures IndexOf(email, "@") == |local|
  {
    var at := |local|;
    assert OccursAt(email, "@", at) by {
      assert email[at..at + 1] == [email[at]];
    }
    forall j | 0 <= j < at ensures !OccursAt(email, "@", j) {
      assert email[j] == local[j];
      assert email[j..j + 1] == [email[j]];
    }
  }

  /** Every address of the pattern's shape passes the computed check. */
  lemma PatternMatchIsValidEmail(email: string, local: string, host: string, tld: string)
    requires email == local + "@" + host + "." + tld
    requires |local| > 0 && |host| > 0 && |tld| > 0
    requires Plain(local) && Plain(host) && Plain(tld)
    ensures IsValidEmail(email)
  {
    var at := |local|;
    var domain := host + "." + tld;
    assert email == local + "@" + domain;
    FirstAtAfterLocal(email, local, domain);
    assert email[..at] == local;
    assert email[at + 1..] == domain;
    assert domain[|host|] == '.';
    assert Plain(domain) by {
      forall k | 0 <= k < |domain| ensures !IsSpace(domain[k]) && domain[k] != '@' {
        if k < |host| {
          assert domain[k] == host[k];
        } else if k > |host| {
          assert domain[k] == tld[k - |host| - 1];
        }
      }
    }
  }

  /** The computed check accepts exactly the addresses the pattern matches. */
  lemma IsValidEmailMatchesPattern(email: string)
    ensures IsValidEmail(email) <==> MatchesPattern(email)
  {
    if IsValidEmail(email) {
      ValidEmailMatchesPattern(email);
    }
    if MatchesPattern(email) {
      var local: string, host: string, tld: string :| SplitsAs(email, local, host, tld);
      PatternMatchIsValidEmail(email, local, host, tld);
    }
  }
}
