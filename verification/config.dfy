/** The start-up of `main.py`: the settings are checked one assertion at a
    time and copied into the config every account shares, then one account
    is started per user entry that carries an access key. Settings are
    integers here; a missing key is `None`. */
module Config {
  import opened Wrappers
  import opened Seqs
  import opened UidParse

  /** The settings as read from `users.yaml` or the `USERS` variable. */
  datatype RawSettings = RawSettings(
    likeCd: Option<int>,
    danmakuCd: Option<int>,
    watchTarget: Option<int>,
    watchMaxAttempts: Option<int>,
    wearMedal: Option<int>,
    proxy: Option<string>)

  /** The config dictionary handed to every account. */
  datatype Settings = Settings(
    likeCd: int,
    danmakuCd: int,
    watchTarget: int,
    watchMaxAttempts: int,
    wearMedal: int,
    proxy: Option<string>)

  /** Why start-up stops: a key is missing, or an assertion about it fails. */
  datatype ConfigError = MissingKey(key: string) | BadValue(key: string)

  /** The settings an accepted config satisfies. */
  predicate Acceptable(c: Settings)
  {
    && c.likeCd >= 0
    && c.danmakuCd >= 0
    && c.watchTarget >= 0
    && c.watchMaxAttempts >= c.watchTarget
    && c.wearMedal in {0, 1}
  }

  /** The raw settings that hold exactly the values of `c`. */
  function Raw(c: Settings): (raw: RawSettings)
    ensures raw.likeCd.Some? && raw.danmakuCd.Some? && raw.watchTarget.Some?
    ensures raw.watchMaxAttempts.Some? && raw.wearMedal.Some?
  {
    RawSettings(Some(c.likeCd), Some(c.danmakuCd), Some(c.watchTarget), Some(c.watchMaxAttempts), Some(c.wearMedal), c.proxy)
  }

  /** The five assertions in their order; each reads its keys before it
      compares, so a missing key is reported where it is first read.
      `PROXY` is read with `get` and may be absent. */
  function LoadConfig(raw: RawSettings): (r: Result<Settings, ConfigError>)
    ensures r.Ok? ==> Acceptable(r.value) && Raw(r.value) == raw
    ensures raw.likeCd.None? ==> r == Err(MissingKey("LIKE_CD"))
    ensures raw.likeCd.Some? && raw.likeCd.value < 0 ==> r == Err(BadValue("LIKE_CD"))
  {
    if raw.likeCd.None? then Err(MissingKey("LIKE_CD"))
    else if raw.likeCd.value < 0 then Err(BadValue("LIKE_CD"))
    else if raw.danmakuCd.None? then Err(MissingKey("DANMAKU_CD"))
    else if raw.danmakuCd.value < 0 then Err(BadValue("DANMAKU_CD"))
    else if raw.watchTarget.None? then Err(MissingKey("WATCH_TARGET"))
    else if raw.watchTarget.value < 0 then Err(BadValue("WATCH_TARGET"))
    else if raw.watchMaxAttempts.None? then Err(MissingKey("WATCH_MAX_ATTEMPTS"))
    else if raw.watchMaxAttempts.value < raw.watchTarget.value then Err(BadValue("WATCH_MAX_ATTEMPTS"))
    else if raw.wearMedal.None? then Err(MissingKey("WEARMEDAL"))
    else if raw.wearMedal.value !in {0, 1} then Err(BadValue("WEARMEDAL"))
    else Ok(Settings(raw.likeCd.value, raw.danmakuCd.value, raw.watchTarget.value,
                     raw.watchMaxAttempts.value, raw.wearMedal.value, raw.proxy))
  }

  /** A config is accepted exactly when its values pass every assertion,
      and it is then carried over unchanged. */
  lemma LoadConfigExact(c: Settings)
    ensures LoadConfig(Raw(c)).Ok? <==> Acceptable(c)
    ensures Acceptable(c) ==> LoadConfig(Raw(c)) == Ok(c)
  {
  }

  /** The first of the five keys, in the order the assertions read them,
      that is absent. */
  function FirstMissing(raw: RawSettings): Option<string>
  {
    if raw.likeCd.None? then Some("LIKE_CD")
    else if raw.danmakuCd.None? then Some("DANMAKU_CD")
    else if raw.watchTarget.None? then Some("WATCH_TARGET")
    else if raw.watchMaxAttempts.None? then Some("WATCH_MAX_ATTEMPTS")
    else if raw.wearMedal.None? then Some("WEARMEDAL")
    else None
  }

  /** A missing key always stops start-up. A `MissingKey` error names the
      first absent key, and with every key present no such error occurs. */
  lemma MissingKeyReported(raw: RawSettings)
    ensures FirstMissing(raw).Some? ==> LoadConfig(raw).Err?
    ensures LoadConfig(raw).Err? && LoadConfig(raw).error.MissingKey?
      ==> FirstMissing(raw) == Some(LoadConfig(raw).error.key)
    ensures FirstMissing(raw).None? && LoadConfig(raw).Err? ==> LoadConfig(raw).error.BadValue?
  {
  }

  /** One entry of the `USERS` list. A key that is absent is `None`; a
      present `white_uid` or `banned_uid` is whatever value it holds. */
  datatype UserEntry = UserEntry(accessKey: Option<string>, whiteUid: Option<UidInput>, bannedUid: Option<UidInput>)

  /** A started account: its key and its parsed white and banned lists. */
  datatype Account = Account(accessKey: string, whiteList: seq<int>, bannedList: seq<int>)

  /** `user.get("access_key")` is truthy: present and not empty. */
  predicate HasKey(u: UserEntry)
  {
    u.accessKey.Some? && |u.accessKey.value| > 0
  }

  /** `user.get(key, "")`: an absent list is the empty string. */
  function UidField(field: Option<UidInput>): UidInput
  {
    match field
    case Some(v) => v
    case None => TextInput("")
  }

  /** The account built for a user entry with a key. */
  function AccountOf(u: UserEntry): (a: Account)
    requires HasKey(u)
    ensures a.accessKey == u.accessKey.value
    ensures u.whiteUid.None? ==> a.whiteList == []
    ensures u.bannedUid.None? ==> a.bannedList == []
  {
    Account(u.accessKey.value, ParseUidInput(UidField(u.whiteUid)), ParseUidInput(UidField(u.bannedUid)))
  }

  /** The accounts started for a `USERS` list, in list order. */
  function StartAccounts(users: seq<UserEntry>): (r: seq<Account>)
    ensures |r| <= |users|
    ensures forall a :: a in r ==> |a.accessKey| > 0
  {
    if |users| == 0 then []
    else
      var n := |users| - 1;
      var u := users[n];
      StartAccounts(users[..n]) + (if HasKey(u) then [AccountOf(u)] else [])
  }

  /** Every entry with a key gets its account. */
  lemma {:induction false} StartAccountsCovers(users: seq<UserEntry>)
    ensures forall i :: 0 <= i < |users| && HasKey(users[i]) ==> AccountOf(users[i]) in StartAccounts(users)
  {
    if |users| > 0 {
      var n := |users| - 1;
      var front := users[..n];
      StartAccountsCovers(front);
      assert StartAccounts(users) == StartAccounts(front) + (if HasKey(users[n]) then [AccountOf(users[n])] else []);
      forall i | 0 <= i < |users| && HasKey(users[i])
        ensures AccountOf(users[i]) in StartAccounts(users)
      {
        if i < n {
          assert users[i] == front[i];
        }
      }
    }
  }

  /** How many entries carry a key. */
  function KeyedCount(users: seq<UserEntry>): (n: nat)
    ensures n <= |users|
  {
    if |users| == 0 then 0
    else KeyedCount(users[1..]) + (if HasKey(users[0]) then 1 else 0)
  }

  /** Exactly one account per keyed entry: the count matches, and
      every started account comes from a keyed entry. */
  lemma {:induction false} StartAccountsExact(users: seq<UserEntry>)
    ensures |StartAccounts(users)| == KeyedCount(users)
    ensures forall a :: a in StartAccounts(users) ==>
      exists i :: 0 <= i < |users| && HasKey(users[i]) && AccountOf(users[i]) == a
  {
    if |users| > 0 {
      var n := |users| - 1;
      StartAccountsExact(users[..n]);
      KeyedCountLast(users);
      forall a | a in StartAccounts(users)
        ensures exists i :: 0 <= i < |users| && HasKey(users[i]) && AccountOf(users[i]) == a
      {
        if a in StartAccounts(users[..n]) {
          var i :| 0 <= i < n && HasKey(users[..n][i]) && AccountOf(users[..n][i]) == a;
          assert users[i] == users[..n][i];
        } else {
          assert HasKey(users[n]) && AccountOf(users[n]) == a;
        }
      }
    }
  }

  /** `KeyedCount` also peels off the last entry. */
  lemma {:induction false} KeyedCountLast(users: seq<UserEntry>)
    requires |users| > 0
    ensures KeyedCount(users) == KeyedCount(users[..|users| - 1]) + (if HasKey(users[|users| - 1]) then 1 else 0)
  {
    if |users| > 1 {
      var n := |users| - 1;
      KeyedCountLast(users[1..]);
      assert users[1..][..n - 1] == users[..n][1..];
      assert users[1..][n - 1] == users[n];
    }
  }

  /** Starting accounts keeps the order of the list: the accounts for a
      concatenation are those of the first part followed by the second. */
  lemma {:induction false} StartAccountsAppend(a: seq<UserEntry>, b: seq<UserEntry>)
    ensures StartAccounts(a + b) == StartAccounts(a) + StartAccounts(b)
  {
    if |b| == 0 {
      assert a + b == a;
    } else {
      var n := |b| - 1;
      var u := b[n];
      var last := if HasKey(u) then [AccountOf(u)] else [];
      assert (a + b)[..|a + b| - 1] == a + b[..n] && (a + b)[|a + b| - 1] == u;
      assert StartAccounts(a + b) == StartAccounts(a + b[..n]) + last;
      assert StartAccounts(b) == StartAccounts(b[..n]) + last;
      StartAccountsAppend(a, b[..n]);
      ConcatAssoc(StartAccounts(a), StartAccounts(b[..n]), last);
    }
  }
}
