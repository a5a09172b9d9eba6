/** Token edits from several processes at once: each successful one lands. */
module TokenEditors {
  import opened Wrappers
  import opened Scope
  import opened ConfigTokens
  import opened Editors
  import opened UnlockedEditors

  /** Editor `i` sets `keyOf(i)`'s token to `tokenOf(i)`. */
  function SettingTokens(keyOf: nat -> TokenKey, tokenOf: nat -> string): Edits<Table> {
    (i: nat) => (doc: Table) => Set(doc, keyOf(i), tokenOf(i))
  }

  function Set(doc: Table, key: TokenKey, token: string): Option<Table> {
    match WithToken(doc, key, token)
    case Ok(edited) => Some(edited)
    case Err(_) => None
  }

  /** The one entry a lookup of `key` finds holds `token`. */
  predicate HasToken(doc: Table, key: TokenKey, token: string) {
    var tokens := TokensIn(doc);
    Matching(tokens, key.host, key.login) == {Display(key)} && tokens[Display(key)] == Str(token)
  }

  /** The editors set tokens of different logins. */
  ghost predicate KeysApart(keyOf: nat -> TokenKey) {
    && (forall i :: IsKey(keyOf(i)))
    && forall i, j :: i != j ==> !IsSameLogin(keyOf(i), keyOf(j).host, keyOf(j).login)
  }

  lemma SetKeepsOthers(doc: Table, key: TokenKey, token: string, other: TokenKey, kept: string)
    requires IsKey(key) && Set(doc, key, token).Some? && !IsSameLogin(key, other.host, other.login)
    requires HasToken(doc, other, kept)
    ensures HasToken(Set(doc, key, token).value, other, kept)
  {
    SetFindsIt(doc, key, token);
    assert Display(other) in Matching(TokensIn(doc), other.host, other.login);
  }

  lemma {:induction false} EachTokenStays(
    keyOf: nat -> TokenKey, tokenOf: nat -> string, init: Table, ids: seq<nat>, i: nat)
    requires KeysApart(keyOf) && InTurn(SettingTokens(keyOf, tokenOf), init, ids).Some? && i in ids
    ensures HasToken(InTurn(SettingTokens(keyOf, tokenOf), init, ids).value, keyOf(i), tokenOf(i))
  {
    var front, last := ids[..|ids| - 1], ids[|ids| - 1];
    var before := InTurn(SettingTokens(keyOf, tokenOf), init, front).value;
    assert ids == front + [last];
    if i == last {
      SetFindsIt(before, keyOf(last), tokenOf(last));
    } else {
      EachTokenStays(keyOf, tokenOf, init, front, i);
      SetKeepsOthers(before, keyOf(last), tokenOf(last), keyOf(i), tokenOf(i));
    }
  }

  /** Whatever the interleaving and whoever crashes, every editor that succeeded finds its token in the
      file, under its own key alone. */
  lemma NoTokenIsLost(
    keyOf: nat -> TokenKey, tokenOf: nat -> string, init: Table, steps: seq<Step>, i: nat)
    requires KeysApart(keyOf) && AllLocked(steps)
    ensures var w := AfterAll(SettingTokens(keyOf, tokenOf), Start(init), steps);
            i in w.acquired && DidSucceed(w.phases)(i) ==> HasToken(w.file, keyOf(i), tokenOf(i))
  {
    var edits := SettingTokens(keyOf, tokenOf);
    var w := AfterAll(edits, Start(init), steps);
    StartIsSerial(edits, init);
    EditsAreSerial(edits, init, Start(init), steps);
    if i in w.acquired && DidSucceed(w.phases)(i) {
      EachTokenStays(keyOf, tokenOf, init, w.written, i);
    }
  }

  /** Without the lock too, every token installed is found, as long as every install replaced the file its
      editor had loaded. */
  lemma FreshTokensAreFound(
    keyOf: nat -> TokenKey, tokenOf: nat -> string, init: Table, steps: seq<Step>, i: nat)
    requires KeysApart(keyOf) && AllFresh(SettingTokens(keyOf, tokenOf), Start(init), steps)
    ensures var w := AfterAll(SettingTokens(keyOf, tokenOf), Start(init), steps);
            i in w.written ==> HasToken(w.file, keyOf(i), tokenOf(i))
  {
    var edits := SettingTokens(keyOf, tokenOf);
    InTurnExactly(edits, init, Start(init), steps);
    EndsInTurn(edits, init, Start(init), steps);
    var w := AfterAll(edits, Start(init), steps);
    if i in w.written {
      EachTokenStays(keyOf, tokenOf, init, w.written, i);
    }
  }

  lemma SetLeavesOthers(doc: Table, key: TokenKey, token: string, other: TokenKey, kept: string)
    requires IsKey(key) && Set(doc, key, token).Some? && !IsSameLogin(key, other.host, other.login)
    ensures HasToken(Set(doc, key, token).value, other, kept) <==> HasToken(doc, other, kept)
  {
    SetFindsIt(doc, key, token);
    var now := TokensIn(Set(doc, key, token).value);
    assert Matching(now, other.host, other.login) == Matching(TokensIn(doc), other.host, other.login);
    if HasToken(doc, other, kept) {
      SetKeepsOthers(doc, key, token, other, kept);
    } else if Matching(now, other.host, other.login) == {Display(other)} {
      assert Display(other) in Matching(now, other.host, other.login);
    }
  }

  /** With one editor that could not take the lock, both set their token and both succeed, but the first
      token is found afterwards only if it was there before. */
  lemma UnlockedTokenIsLost(keyOf: nat -> TokenKey, tokenOf: nat -> string, init: Table, i: nat, j: nat)
    requires KeysApart(keyOf) && i != j
    requires Set(init, keyOf(i), tokenOf(i)).Some? && Set(init, keyOf(j), tokenOf(j)).Some?
    ensures var w := AfterAll(SettingTokens(keyOf, tokenOf), Start(init), Race(i, j, i, j));
            && DidSucceed(w.phases)(i) && DidSucceed(w.phases)(j)
            && HasToken(w.file, keyOf(j), tokenOf(j))
            && (HasToken(w.file, keyOf(i), tokenOf(i)) <==> HasToken(init, keyOf(i), tokenOf(i)))
  {
    var a, b := Set(init, keyOf(i), tokenOf(i)).value, Set(init, keyOf(j), tokenOf(j)).value;
    UnlockedEditorLosesAnEdit(SettingTokens(keyOf, tokenOf), i, j, init, a, b);
    SetFindsIt(init, keyOf(j), tokenOf(j));
    SetLeavesOthers(init, keyOf(j), tokenOf(j), keyOf(i), tokenOf(i));
  }

  /** Editors of different tokens are never independent: each needs the lock. */
  lemma TokensNeedTheLock(keyOf: nat -> TokenKey, tokenOf: nat -> string, unlocked: nat -> bool)
    requires KeysApart(keyOf)
    ensures AllRunsInTurn(SettingTokens(keyOf, tokenOf), unlocked) <==> forall i :: !unlocked(i)
  {
    var edits := SettingTokens(keyOf, tokenOf);
    MayGoExactly(edits, unlocked);
    if i: nat :| unlocked(i) {
      NotIndependent(keyOf, tokenOf, i, i + 1);
      assert !MayGo(edits, unlocked);
    }
  }

  lemma NotIndependent(keyOf: nat -> TokenKey, tokenOf: nat -> string, i: nat, j: nat)
    requires KeysApart(keyOf) && i != j
    ensures !Independent(SettingTokens(keyOf, tokenOf), i, j)
  {
    var edits, d: Table := SettingTokens(keyOf, tokenOf), map[];
    SetFailsExactly(d, keyOf(i), tokenOf(i));
    SetFailsExactly(d, keyOf(j), tokenOf(j));
    var a, b := edits(i)(d).value, edits(j)(d).value;
    SetFindsIt(d, keyOf(i), tokenOf(i));
    SetFindsIt(d, keyOf(j), tokenOf(j));
    SetLeavesOthers(d, keyOf(i), tokenOf(i), keyOf(j), tokenOf(j));
    if edits(i)(b) == Some(a) {
      SetKeepsOthers(b, keyOf(i), tokenOf(i), keyOf(j), tokenOf(j));
    }
  }
}
