/** GitHub names: hosts, logins, repositories, and the keys tokens are stored under. */
module Scope {
  import opened Wrappers
  import opened Text

  // ------------------------------------------------------------ repositories

  predicate IsRepoName(s: string) {
    s != "" && s != "." && s != ".." && forall c :: c in s ==> IsAlphanumeric(c) || c == '-' || c == '_' || c == '.'
  }

  /** Whether `repo` is `<owner>/<name>`, in any case. */
  predicate IsRepoOf(repo: string, owner: string) {
    match SplitOnce(repo, '/')
    case None => false
    case Some(parts) => EqIgnoreCase(parts.0, owner) && IsRepoName(parts.1)
  }

  /** The characters a repository's name may have. */
  predicate IsNameChar(c: char) {
    'a' <= c <= 'z' || 'A' <= c <= 'Z' || '0' <= c <= '9' || c in {'-', '_', '.'}
  }

  /** An owner, in any case, then a slash and a name. */
  lemma RepoOfExactly(repo: string, owner: string)
    ensures IsRepoOf(repo, owner) <==>
      exists o, n :: repo == o + "/" + n && '/' !in o && Lower(o) == Lower(owner)
                     && n != "" && n != "." && n != ".." && forall c :: c in n ==> IsNameChar(c)
  {
    if IsRepoOf(repo, owner) {
      var o, n := SplitOnce(repo, '/').value.0, SplitOnce(repo, '/').value.1;
      assert repo == o + "/" + n;
    }
    if o, n :| repo == o + "/" + n && '/' !in o && Lower(o) == Lower(owner)
               && n != "" && n != "." && n != ".." && forall c :: c in n ==> IsNameChar(c) {
      assert repo == o + ['/'] + n;
      SplitOnceAt(o, '/', n);
    }
  }

  // ---------------------------------------------------------- hosts and keys

  type Host = string

  datatype TokenKey = TokenKey(host: Host, login: string)

  const DOTCOM: Host := "github.com"

  predicate IsHostChar(c: char) {
    IsAlphanumeric(c) || c == '.' || c == '-' || c == ':'
  }

  predicate IsHostName(h: string) {
    h != "" && Lower(h) == h && forall c :: c in h ==> IsHostChar(c)
  }

  predicate IsLogin(l: string) {
    0 < |l| <= 39 && forall c :: c in l ==> IsAlphanumeric(c) || c == '-'
  }

  function ParseHost(s: string): Option<Host> {
    var h := Lower(Trim(s));
    if h != "" && forall c :: c in h ==> IsHostChar(c) then Some(h) else None
  }

  /** `login` for github.com, or `host/login`. */
  function ParseKey(s: string): Option<TokenKey> {
    var t := Trim(s);
    match SplitOnce(t, '/')
    case None => if IsLogin(t) then Some(TokenKey(DOTCOM, t)) else None
    case Some(parts) =>
      var h := ParseHost(parts.0);
      if h.None? || !IsLogin(parts.1) then None else Some(TokenKey(h.value, parts.1))
  }

  function Display(k: TokenKey): string {
    if k.host == DOTCOM then k.login else k.host + "/" + k.login
  }

  predicate Matches(k: TokenKey, host: Host, login: string) {
    k.host == host && EqIgnoreCase(k.login, login)
  }

  /** What parsing can give. */
  predicate IsKey(k: TokenKey) {
    IsHostName(k.host) && IsLogin(k.login)
  }

  lemma LowerTwice(s: string)
    ensures Lower(Lower(s)) == Lower(s)
  {
  }

  lemma ParsedIsKey(s: string)
    ensures ParseKey(s).Some? ==> IsKey(ParseKey(s).value)
  {
    var t := Trim(s);
    if SplitOnce(t, '/').Some? {
      LowerTwice(Trim(SplitOnce(t, '/').value.0));
    } else {
      DotcomIsHost();
    }
  }

  lemma DotcomIsHost()
    ensures IsHostName(DOTCOM)
  {
  }

  /** Printing a key and parsing it back gives the same key; so distinct keys print apart. */
  lemma ParseDisplay(k: TokenKey)
    requires IsKey(k)
    ensures ParseKey(Display(k)) == Some(k)
  {
    var d := Display(k);
    TrimMatchesIs(d, IsWhitespace);
    InkOnly(k.login);
    if k.host == DOTCOM {
      assert '/' !in k.login;
    } else {
      HostHasNoSlash(k.host);
      assert d == k.host + ['/'] + k.login;
      SplitOnceAt(k.host, '/', k.login);
      TrimMatchesIs(k.host, IsWhitespace);
    }
  }

  lemma InkOnly(l: string)
    requires IsLogin(l)
    ensures forall c :: c in l ==> !IsWhitespace(c) && c != '/'
  {
  }

  lemma HostHasNoSlash(h: string)
    requires IsHostName(h)
    ensures '/' !in h && forall c :: c in h ==> !IsWhitespace(c)
  {
  }

  lemma DisplayIsInjective(k: TokenKey, l: TokenKey)
    requires IsKey(k) && IsKey(l) && Display(k) == Display(l)
    ensures k == l
  {
    ParseDisplay(k);
    ParseDisplay(l);
  }

  /** One login on one host, in any case. */
  predicate IsSameLogin(k: TokenKey, host: Host, login: string) {
    k.host == host && Lower(k.login) == Lower(login)
  }

  lemma MatchesExactly(k: TokenKey, host: Host, login: string)
    ensures Matches(k, host, login) <==> IsSameLogin(k, host, login)
  {
  }

  /** Matching is an equivalence on keys: one login on one host, in any case. */
  lemma MatchingIsEquivalence(j: TokenKey, k: TokenKey, l: TokenKey)
    ensures Matches(k, k.host, k.login)
    ensures Matches(j, k.host, k.login) ==> Matches(k, j.host, j.login)
    ensures Matches(j, k.host, k.login) && Matches(k, l.host, l.login) ==> Matches(j, l.host, l.login)
  {
  }

  /** A login: up to 39 letters, digits and dashes. */
  predicate IsLoginText(l: string) {
    1 <= |l| <= 39 && forall c :: c in l ==> 'a' <= c <= 'z' || 'A' <= c <= 'Z' || '0' <= c <= '9' || c == '-'
  }

  /** A host, once in lower case. */
  predicate IsHostText(h: string) {
    h != "" && forall c :: c in h ==> 'a' <= c <= 'z' || '0' <= c <= '9' || c in {'.', '-', ':'}
  }

  lemma LoginIs(l: string)
    ensures IsLogin(l) <==> IsLoginText(l)
  {
  }

  lemma HostIs(h: string)
    ensures ParseHost(h) == if IsHostText(Lower(Trim(h))) then Some(Lower(Trim(h))) else None
  {
    var l := Lower(Trim(h));
    assert forall i :: 0 <= i < |l| ==> l[i] == ToLower(Trim(h)[i]);
    assert forall c :: c in l ==> !('A' <= c <= 'Z');
  }

  /** What parses as a key: a login, of github.com. */
  lemma ParsesLogin(s: string)
    requires '/' !in Trim(s)
    ensures ParseKey(s) == if IsLoginText(Trim(s)) then Some(TokenKey("github.com", Trim(s))) else None
  {
    LoginIs(Trim(s));
  }

  /** Or a host in any case, a slash and a login of that host. */
  lemma ParsesOfHost(s: string, h: string, l: string)
    requires '/' !in h && Trim(s) == h + "/" + l
    ensures ParseKey(s) == if IsHostText(Lower(Trim(h))) && IsLoginText(l) then Some(TokenKey(Lower(Trim(h)), l))
                           else None
  {
    assert Trim(s) == h + ['/'] + l;
    SplitOnceAt(h, '/', l);
    HostIs(h);
    LoginIs(l);
  }
}
