/** Editing the tokens in the configuration: setting, removing and looking up a PAT. */
module ConfigTokens {
  import opened Wrappers
  import opened Seqs
  import opened Text
  import opened Scope

  type Table = map<string, Value>

  /** A TOML value, as far as these edits look into it. */
  datatype Value = Str(s: string) | Tbl(t: Table) | Arr(items: seq<Value>) | Scalar(text: string)

  // ---------------------------------------------------------------- the code

  /** The table at `path`, missing ones taken as empty. */
  function Nested(doc: Table, path: seq<string>): Result<Table, string>
    decreases |path|
  {
    if path == [] then Ok(doc)
    else if path[0] !in doc then Nested(map[], path[1..])
    else if !doc[path[0]].Tbl? then Err("`" + path[0] + "` is not a table")
    else Nested(doc[path[0]].t, path[1..])
  }

  /** `doc` with the table at `path` replaced, missing ones created. */
  function Put(doc: Table, path: seq<string>, t: Table): Table
    decreases |path|
  {
    if path == [] then t
    else
      var sub := if path[0] in doc && doc[path[0]].Tbl? then doc[path[0]].t else map[];
      doc[path[0] := Tbl(Put(sub, path[1..], t))]
  }

  const TOKENS: seq<string> := ["github", "tokens"]

  predicate SameKey(k: string, key: TokenKey) {
    ParseKey(k).Some? && Matches(ParseKey(k).value, key.host, key.login)
  }

  /** `retain` of the keys that are not `key`'s. */
  function Retained(tokens: Table, key: TokenKey): Table {
    map k | k in tokens && !SameKey(k, key) :: tokens[k]
  }

  predicate IsOrg(v: Value, login: string) {
    v.Str? && EqIgnoreCase(v.s, login)
  }

  function NotOrg(login: string): Value -> bool {
    (v: Value) => !IsOrg(v, login)
  }

  function WithToken(doc: Table, key: TokenKey, token: string): Result<Table, string> {
    match Nested(doc, TOKENS)
    case Err(e) => Err(e)
    case Ok(tokens) => Ok(Put(doc, TOKENS, Retained(tokens, key)[Display(key) := Str(token)]))
  }

  function GithubIn(doc: Table): Table {
    if "github" in doc && doc["github"].Tbl? then doc["github"].t else map[]
  }

  /** The tokens table, if there is one. */
  function TokensIn(doc: Table): Table {
    if "github" in doc && doc["github"].Tbl? && "tokens" in doc["github"].t && doc["github"].t["tokens"].Tbl?
    then doc["github"].t["tokens"].t
    else map[]
  }

  function OrgsIn(doc: Table): seq<Value> {
    if "orgs" in doc && doc["orgs"].Arr? then doc["orgs"].items else []
  }

  /** The `github` table once `key`'s tokens are gone: without an emptied tokens table. */
  function GithubWithout(github: Table, key: TokenKey): Table {
    if "tokens" !in github || !github["tokens"].Tbl? then github
    else
      var kept := Retained(github["tokens"].t, key);
      if kept == map[] then github - {"tokens"} else github["tokens" := Tbl(kept)]
  }

  /** And the document: without an emptied `github` table. */
  function DocWithout(doc: Table, key: TokenKey): Table {
    if "github" !in doc || !doc["github"].Tbl? then doc
    else
      var github := GithubWithout(doc["github"].t, key);
      if github == map[] then doc - {"github"} else doc["github" := Tbl(github)]
  }

  function OrgsWithout(doc: Table, key: TokenKey): Table {
    if key.host == DOTCOM && "orgs" in doc && doc["orgs"].Arr?
    then doc["orgs" := Arr(Where(doc["orgs"].items, NotOrg(key.login)))]
    else doc
  }

  /** The configuration file; a missing one reads as empty. */
  class ConfigFile {
    var doc: Table

    constructor (doc: Table)
      ensures this.doc == doc
    {
      this.doc := doc;
    }

    method SetOrgToken(key: TokenKey, token: string, writes: bool) returns (r: Result<(), string>)
      modifies this
      ensures WithToken(old(doc), key, token).Err? ==>
        r == Err(WithToken(old(doc), key, token).error) && doc == old(doc)
      ensures WithToken(old(doc), key, token).Ok? ==> (r.Ok? <==> writes)
      ensures WithToken(old(doc), key, token).Ok? ==> doc == if writes then WithToken(old(doc), key, token).value
          else old(doc)
    {
      var tokens := Nested(doc, TOKENS);
      if tokens.Err? {
        return Err(tokens.error);
      }
      var t := Retained(tokens.value, key);
      t := t[Display(key) := Str(token)];
      var edited := Put(doc, TOKENS, t);
      if !writes {
        return Err("installing the config");
      }
      doc := edited;
      r := Ok(());
    }

    /** An error, and nothing written, if neither a PAT nor an `orgs` entry was there. */
    method RemoveOrgToken(key: TokenKey, writes: bool) returns (r: Result<(), string>)
      modifies this
      ensures r.Ok? <==> writes && Configured(old(doc), key)
      ensures doc == if r.Ok? then OrgsWithout(DocWithout(old(doc), key), key) else old(doc)
    {
      var edited, removed := DropTokens(doc, key);
      var trimmed, dropped := DropOrgs(edited, key);
      DocWithoutKeepsOrgs(doc, key);
      SomeOrgIs(doc, key.login);
      removed := removed || dropped;
      if !removed {
        return Err("no PAT is configured for " + Display(key));
      }
      if !writes {
        return Err("installing the config");
      }
      doc := trimmed;
      r := Ok(());
    }
  }

  method DropTokens(doc: Table, key: TokenKey) returns (edited: Table, removed: bool)
    ensures edited == DocWithout(doc, key)
    ensures removed <==> Matching(TokensIn(doc), key.host, key.login) != {}
  {
    edited, removed := doc, false;
    if "github" in edited && edited["github"].Tbl? {
      var github := edited["github"].t;
      if "tokens" in github && github["tokens"].Tbl? {
        var tokens := github["tokens"].t;
        var before := |tokens|;
        RetainedSmaller(tokens, key);
        tokens := Retained(tokens, key);
        removed := |tokens| < before;
        github := if tokens == map[] then github - {"tokens"} else github["tokens" := Tbl(tokens)];
      }
      edited := if github == map[] then edited - {"github"} else edited["github" := Tbl(github)];
    }
  }

  method DropOrgs(doc: Table, key: TokenKey) returns (edited: Table, removed: bool)
    ensures edited == OrgsWithout(doc, key)
    ensures removed <==> key.host == DOTCOM && exists v :: v in OrgsIn(doc) && IsOrg(v, key.login)
  {
    edited, removed := doc, false;
    if key.host == DOTCOM && "orgs" in edited && edited["orgs"].Arr? {
      var orgs := edited["orgs"].items;
      var before := |orgs|;
      WhereSmaller(orgs, NotOrg(key.login));
      orgs := Where(orgs, NotOrg(key.login));
      removed := |orgs| < before;
      edited := edited["orgs" := Arr(orgs)];
    }
  }

  // ----------------------------------------------------------------- lookups

  /** The stored keys a runner of `login` on `host` matches. */
  function Matching(tokens: Table, host: Host, login: string): set<string> {
    set k | k in tokens && ParseKey(k).Some? && IsSameLogin(ParseKey(k).value, host, login)
  }

  /** Something to remove: a PAT, or for github.com an `orgs` entry. */
  predicate Configured(doc: Table, key: TokenKey) {
    || Matching(TokensIn(doc), key.host, key.login) != {}
    || (key.host == DOTCOM && "orgs" in doc && doc["orgs"].Arr?
        && exists v :: v in doc["orgs"].items && v.Str? && Lower(v.s) == Lower(key.login))
  }

  /** `github.token`. */
  function PlainIn(doc: Table): Option<string> {
    var github := GithubIn(doc);
    if "token" in github && github["token"].Str? then Some(github["token"].s) else None
  }

  /** What a login without an entry gets: for github.com the environment's token or the plain one. */
  function Fallback(doc: Table, env: Option<string>, host: Host): Option<string> {
    if host != DOTCOM then None else if env.Some? && env.value != "" then env else PlainIn(doc)
  }

  /** What `github_token_for` may answer: any matching entry, else the fallback. */
  predicate IsTokenFor(doc: Table, env: Option<string>, host: Host, login: string, answer: Option<string>) {
    var tokens := TokensIn(doc);
    if Matching(tokens, host, login) != {} then
      answer.Some? && exists k :: k in Matching(tokens, host, login) && tokens[k] == Str(answer.value)
    else answer == Fallback(doc, env, host)
  }

  /** The two documents differ only in their tokens, and by `orgs` if given. */
  predicate SameSettings(a: Table, b: Table, but: set<string>) {
    a - ({"github"} + but) == b - ({"github"} + but) && GithubIn(a) - {"tokens"} == GithubIn(b) - {"tokens"}
  }

  // -------------------------------------------------------------- properties

  lemma RetainedSmaller(tokens: Table, key: TokenKey)
    ensures Retained(tokens, key).Keys == tokens.Keys - Matching(tokens, key.host, key.login)
    ensures |Retained(tokens, key)| < |tokens| <==> Matching(tokens, key.host, key.login) != {}
  {
    var gone := Matching(tokens, key.host, key.login);
    assert Retained(tokens, key).Keys == tokens.Keys - gone;
    assert tokens.Keys * gone == gone;
    assert |tokens.Keys| == |tokens.Keys - gone| + |gone|;
  }

  lemma NestedTokens(doc: Table)
    ensures Nested(doc, TOKENS).Err? <==>
      "github" in doc && (!doc["github"].Tbl? || ("tokens" in doc["github"].t && !doc["github"].t["tokens"].Tbl?))
    ensures Nested(doc, TOKENS).Ok? ==> Nested(doc, TOKENS).value == TokensIn(doc)
  {
    assert TOKENS[0] == "github" && TOKENS[1..] == ["tokens"] && TOKENS[1..][1..] == [];
  }

  lemma PutTokens(doc: Table, t: Table)
    requires Nested(doc, TOKENS).Ok?
    ensures TokensIn(Put(doc, TOKENS, t)) == t
    ensures Put(doc, TOKENS, t) - {"github"} == doc - {"github"}
    ensures GithubIn(Put(doc, TOKENS, t)) - {"tokens"} == GithubIn(doc) - {"tokens"}
  {
    NestedTokens(doc);
    var sub := GithubIn(doc);
    assert TOKENS[0] == "github" && TOKENS[1..] == ["tokens"] && TOKENS[1..][1..] == [];
    assert Put(sub, ["tokens"], t) == sub["tokens" := Tbl(t)];
    assert Put(doc, TOKENS, t) == doc["github" := Tbl(sub["tokens" := Tbl(t)])];
  }

  /** After setting `key`'s token, exactly one stored key matches it, under its own spelling and with the
      token; every other login finds what it found; and every other setting stays. */
  lemma SetFindsIt(doc: Table, key: TokenKey, token: string)
    requires IsKey(key) && WithToken(doc, key, token).Ok?
    ensures var tokens, now := TokensIn(doc), TokensIn(WithToken(doc, key, token).value);
            && Matching(now, key.host, key.login) == {Display(key)} && now[Display(key)] == Str(token)
            && (forall host, login :: !IsSameLogin(key, host, login) ==>
                  && Matching(now, host, login) == Matching(tokens, host, login)
                  && forall k :: k in Matching(now, host, login) ==> now[k] == tokens[k])
            && SameSettings(WithToken(doc, key, token).value, doc, {})
  {
    NestedTokens(doc);
    var tokens := TokensIn(doc);
    var now := Retained(tokens, key)[Display(key) := Str(token)];
    PutTokens(doc, now);
    ParseDisplay(key);
    assert SameKey(Display(key), key);
    forall host, login, k | !IsSameLogin(key, host, login) && k in tokens && SameKey(k, TokenKey(host, login))
      ensures !SameKey(k, key)
    {
      MatchingIsEquivalence(key, ParseKey(k).value, TokenKey(host, login));
    }
    forall host, login | !IsSameLogin(key, host, login)
      ensures Matching(now, host, login) == Matching(tokens, host, login)
      ensures forall k :: k in Matching(now, host, login) ==> now[k] == tokens[k]
    {
    }
  }

  lemma SameFallback(a: Table, b: Table, but: set<string>, env: Option<string>, host: Host)
    requires SameSettings(a, b, but)
    ensures Fallback(a, env, host) == Fallback(b, env, host)
  {
    var g, h := GithubIn(a), GithubIn(b);
    assert "token" in g <==> "token" in g - {"tokens"};
    assert "token" in h <==> "token" in h - {"tokens"};
    if "token" in g {
      assert (g - {"tokens"})["token"] == g["token"] && (h - {"tokens"})["token"] == h["token"];
    }
  }

  /** So any spelling of the login looks up that token, whatever other tokens are around; and any other login
      looks up what it did, an entry or the fallback. */
  lemma SetThenLookup(doc: Table, key: TokenKey, token: string, env: Option<string>, host: Host, login: string,
                      answer: Option<string>)
    requires IsKey(key) && WithToken(doc, key, token).Ok?
    ensures IsTokenFor(WithToken(doc, key, token).value, env, host, login, answer)
            <==> if IsSameLogin(key, host, login) then answer == Some(token)
                 else IsTokenFor(doc, env, host, login, answer)
  {
    SetFindsIt(doc, key, token);
    var now := TokensIn(WithToken(doc, key, token).value);
    if IsSameLogin(key, host, login) {
      assert Matching(now, key.host, login) == Matching(now, key.host, key.login);
      assert Display(key) in Matching(now, key.host, login);
    } else {
      SameFallback(WithToken(doc, key, token).value, doc, {}, env, host);
    }
  }

  /** Only a non-table in the way is an error. */
  lemma SetFailsExactly(doc: Table, key: TokenKey, token: string)
    ensures WithToken(doc, key, token).Err? <==>
      "github" in doc && (!doc["github"].Tbl? || ("tokens" in doc["github"].t && !doc["github"].t["tokens"].Tbl?))
  {
    NestedTokens(doc);
  }

  lemma DocWithoutKeepsOrgs(doc: Table, key: TokenKey)
    ensures OrgsIn(DocWithout(doc, key)) == OrgsIn(doc)
    ensures DocWithout(doc, key) - {"github"} == doc - {"github"}
  {
  }

  lemma DocWithoutTokens(doc: Table, key: TokenKey)
    ensures TokensIn(DocWithout(doc, key)) == Retained(TokensIn(doc), key)
  {
    if "github" in doc && doc["github"].Tbl? {
      var github := GithubWithout(doc["github"].t, key);
      if github == map[] {
        assert "github" !in DocWithout(doc, key);
        assert "tokens" !in github;
      }
    }
  }

  lemma OrgsWithoutKeepsTokens(doc: Table, key: TokenKey)
    ensures TokensIn(OrgsWithout(doc, key)) == TokensIn(doc)
    ensures OrgsIn(OrgsWithout(doc, key)) == if key.host == DOTCOM then Where(OrgsIn(doc), NotOrg(key.login))
        else OrgsIn(doc)
    ensures OrgsWithout(doc, key) - {"orgs"} == doc - {"orgs"}
  {
  }

  lemma DocWithoutKeepsGithub(doc: Table, key: TokenKey)
    ensures GithubIn(DocWithout(doc, key)) - {"tokens"} == GithubIn(doc) - {"tokens"}
  {
    if "github" in doc && doc["github"].Tbl? {
      var before, after := doc["github"].t, GithubWithout(doc["github"].t, key);
      assert after - {"tokens"} == before - {"tokens"};
      if after == map[] {
        assert GithubIn(DocWithout(doc, key)) == map[];
      }
    }
  }

  lemma OrgsWithoutKeepsGithub(doc: Table, key: TokenKey)
    ensures GithubIn(OrgsWithout(doc, key)) == GithubIn(doc)
  {
  }

  lemma SomeOrgIs(doc: Table, login: string)
    ensures (exists v :: v in OrgsIn(doc) && IsOrg(v, login))
            <==> "orgs" in doc && doc["orgs"].Arr?
                 && exists v :: v in doc["orgs"].items && v.Str? && Lower(v.s) == Lower(login)
  {
    assert forall v :: v in OrgsIn(doc) ==> (IsOrg(v, login) <==> v.Str? && Lower(v.s) == Lower(login));
  }

  /** Removing leaves no empty table behind. */
  lemma EmptiedTablesGo(doc: Table, key: TokenKey)
    ensures var doc' := DocWithout(doc, key);
            "github" in doc' && doc'["github"].Tbl? ==>
              && doc'["github"].t != map[]
              && ("tokens" in doc'["github"].t && doc'["github"].t["tokens"].Tbl? ==>
                    doc'["github"].t["tokens"].t != map[])
  {
  }

  /** Of the `orgs` list of a document, removing `key` takes the entries that spell its login, in any case, and
      leaves every other. */
  lemma OrgsAreWithout(doc: Table, key: TokenKey, v: Value)
    requires "orgs" in doc && doc["orgs"].Arr? && key.host == DOTCOM
    ensures var doc' := OrgsWithout(DocWithout(doc, key), key);
            && "orgs" in doc' && doc'["orgs"].Arr?
            && |doc'["orgs"].items| <= |doc["orgs"].items|
            && (v in doc'["orgs"].items
                <==> v in doc["orgs"].items && !(v.Str? && Lower(v.s) == Lower(key.login)))
  {
    var without := DocWithout(doc, key);
    assert "orgs" in without && without["orgs"] == doc["orgs"];
    WhereSmaller(doc["orgs"].items, NotOrg(key.login));
  }

  /** After removing `key`, no stored key or `orgs` entry matches it; the others, and every other setting, are
      as they were. */
  lemma RemoveLeavesNone(doc: Table, key: TokenKey)
    ensures var doc' := OrgsWithout(DocWithout(doc, key), key);
            && !Configured(doc', key)
            && TokensIn(doc') == Retained(TokensIn(doc), key)
            && OrgsIn(doc') == (if key.host == DOTCOM then Where(OrgsIn(doc), NotOrg(key.login)) else OrgsIn(doc))
            && SameSettings(doc', doc, {"orgs"})
  {
    var without := DocWithout(doc, key);
    var doc' := OrgsWithout(without, key);
    DocWithoutKeepsOrgs(doc, key);
    SomeOrgIs(OrgsWithout(DocWithout(doc, key), key), key.login);
    DocWithoutTokens(doc, key);
    OrgsWithoutKeepsTokens(without, key);
    assert Matching(Retained(TokensIn(doc), key), key.host, key.login) == {};
    OtherSettings(doc, without, doc');
    DocWithoutKeepsGithub(doc, key);
    OrgsWithoutKeepsGithub(without, key);
    assert {"github"} + {"orgs"} == {"github", "orgs"};
  }

  /** So any spelling of the login is back to the fallback, and any other login looks up what it did. */
  lemma RemoveThenLookup(doc: Table, key: TokenKey, env: Option<string>, host: Host, login: string,
                         answer: Option<string>)
    ensures IsTokenFor(OrgsWithout(DocWithout(doc, key), key), env, host, login, answer)
            <==> if IsSameLogin(key, host, login) then answer == Fallback(doc, env, host)
                 else IsTokenFor(doc, env, host, login, answer)
  {
    var doc' := OrgsWithout(DocWithout(doc, key), key);
    var tokens, now := TokensIn(doc), TokensIn(doc');
    RemoveLeavesNone(doc, key);
    SameFallback(doc', doc, {"orgs"}, env, host);
    if IsSameLogin(key, host, login) {
      assert Matching(now, host, login) == Matching(now, key.host, key.login) == {};
    } else {
      forall k | k in tokens && SameKey(k, TokenKey(host, login)) ensures !SameKey(k, key) {
        MatchingIsEquivalence(key, ParseKey(k).value, TokenKey(host, login));
      }
      assert Matching(now, host, login) == Matching(tokens, host, login);
    }
  }

  lemma OtherSettings(a: Table, b: Table, c: Table)
    requires b - {"github"} == a - {"github"} && c - {"orgs"} == b - {"orgs"}
    ensures c - {"github", "orgs"} == a - {"github", "orgs"}
  {
    forall k | k !in {"github", "orgs"} ensures (k in c <==> k in a) && (k in c ==> c[k] == a[k]) {
      assert k in b <==> k in b - {"github"};
      assert k in b <==> k in b - {"orgs"};
      assert k in a <==> k in a - {"github"};
      assert k in c <==> k in c - {"orgs"};
      if k in b {
        assert (b - {"github"})[k] == b[k] && (b - {"orgs"})[k] == b[k];
        assert (a - {"github"})[k] == a[k] && (c - {"orgs"})[k] == c[k];
      }
    }
  }

  /** Removing what was set gives the tokens and settings from before, when `key` had none. */
  lemma RemoveUndoesSet(doc: Table, key: TokenKey, token: string)
    requires IsKey(key) && WithToken(doc, key, token).Ok? && !Configured(doc, key)
    ensures var set_ := WithToken(doc, key, token).value;
            var back := OrgsWithout(DocWithout(set_, key), key);
            && Configured(set_, key)
            && TokensIn(back) == TokensIn(doc) && OrgsIn(back) == OrgsIn(doc)
            && SameSettings(back, doc, {"orgs"})
  {
    var set_ := WithToken(doc, key, token).value;
    SetFindsIt(doc, key, token);
    RemoveLeavesNone(set_, key);
    SetThenRetained(doc, key, token);
    OrgsUntouched(doc, set_);
    if key.host == DOTCOM {
      WhereAll(OrgsIn(doc), NotOrg(key.login));
    }
    OtherSettings(doc, set_, set_);
    assert {"github"} + {"orgs"} == {"github", "orgs"} && {"github"} + {} == {"github"};
    Agree(OrgsWithout(DocWithout(set_, key), key), set_, doc);
  }

  lemma Agree(a: Table, b: Table, c: Table)
    requires a - {"github", "orgs"} == b - {"github", "orgs"} && b - {"github", "orgs"} == c - {"github", "orgs"}
    ensures a - {"github", "orgs"} == c - {"github", "orgs"}
  {
  }

  lemma OrgsUntouched(a: Table, b: Table)
    requires b - {"github"} == a - {"github"}
    ensures OrgsIn(b) == OrgsIn(a)
  {
    assert "orgs" in a <==> "orgs" in a - {"github"};
    assert "orgs" in b <==> "orgs" in b - {"github"};
    if "orgs" in a {
      assert (a - {"github"})["orgs"] == a["orgs"] && (b - {"github"})["orgs"] == b["orgs"];
    }
  }

  lemma RetainedSet(tokens: Table, key: TokenKey, token: string)
    requires SameKey(Display(key), key) && Matching(tokens, key.host, key.login) == {}
    ensures Retained(Retained(tokens, key)[Display(key) := Str(token)], key) == tokens
  {
    forall k | k in tokens ensures !SameKey(k, key) {
      assert k !in Matching(tokens, key.host, key.login);
    }
  }

  lemma SetThenRetained(doc: Table, key: TokenKey, token: string)
    requires IsKey(key) && WithToken(doc, key, token).Ok? && Matching(TokensIn(doc), key.host, key.login) == {}
    ensures Retained(TokensIn(WithToken(doc, key, token).value), key) == TokensIn(doc)
  {
    NestedTokens(doc);
    var tokens := TokensIn(doc);
    var now := Retained(tokens, key)[Display(key) := Str(token)];
    PutTokens(doc, now);
    ParseDisplay(key);
    assert SameKey(Display(key), key);
    RetainedSet(tokens, key, token);
  }
}
