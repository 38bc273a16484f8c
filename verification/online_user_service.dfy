/**
 The online-user monitor (`OnlineUserService`): listing the cached sessions
 one page at a time, forcing users out, and exporting the sessions. The cache
 is a map from key to session; a key without a value reads as null. The keys
 under the online prefix are given in the order the cache scan returns them,
 and the MD5 digest is an opaque function parameter.
 */
module OnlineUserService {
  import opened Common

  datatype LoginUserInfo = LoginUserInfo(
    userId: int,
    account: string,
    accessToken: string,
    currentPermission: Option<seq<string>>,
    isAdmin: bool,
    ip: string)

  type Cache = map<string, LoginUserInfo>

  /** The session with its permission list cleared, as both listing and export do. */
  function Cleared(u: LoginUserInfo): LoginUserInfo {
    u.(currentPermission := None)
  }

  /** The session as the listing shows it: no permissions, and the token replaced by its digest. */
  function Redacted(u: LoginUserInfo, md5: string -> string): LoginUserInfo {
    u.(currentPermission := None, accessToken := md5(u.accessToken))
  }

  /** Session `u` is the cleared value of a cached key among `keys`. */
  predicate FromCache(u: LoginUserInfo, keys: seq<string>, cache: Cache) {
    exists k :: 0 <= k < |keys| && keys[k] in cache && u == Cleared(cache[keys[k]])
  }

  /**
   The reference list of sessions: one cleared entry per scanned key that has
   a value, in scan order.
   */
  function Exported(keys: seq<string>, cache: Cache): (r: seq<LoginUserInfo>)
    ensures |r| <= |keys|
    ensures forall j :: 0 <= j < |r| ==> FromCache(r[j], keys, cache)
    ensures (forall k :: 0 <= k < |keys| ==> keys[k] !in cache) ==> r == []
  {
    if keys == [] then []
    else
      var init := keys[..|keys| - 1];
      var last := keys[|keys| - 1];
      var r := Exported(init, cache) + (if last in cache then [Cleared(cache[last])] else []);
      assert forall k :: 0 <= k < |init| ==> keys[k] == init[k];
      assert forall j :: 0 <= j < |r| ==> FromCache(r[j], keys, cache) by {
        forall j | 0 <= j < |r|
          ensures FromCache(r[j], keys, cache)
        {
          if j < |Exported(init, cache)| {
            assert FromCache(r[j], init, cache);
          } else {
            assert r[j] == Cleared(cache[keys[|keys| - 1]]);
          }
        }
      }
      r
  }

  /** Every scanned key with a value contributes its cleared session. */
  lemma {:induction false} ExportedComplete(keys: seq<string>, cache: Cache, k: int)
    requires 0 <= k < |keys| && keys[k] in cache
    ensures exists j :: 0 <= j < |Exported(keys, cache)| && Exported(keys, cache)[j] == Cleared(cache[keys[k]])
    decreases |keys|
  {
    var init := keys[..|keys| - 1];
    var r := Exported(keys, cache);
    if k < |init| {
      assert init[k] == keys[k];
      ExportedComplete(init, cache, k);
      var j :| 0 <= j < |Exported(init, cache)| && Exported(init, cache)[j] == Cleared(cache[keys[k]]);
      assert r[j] == Exported(init, cache)[j];
    } else {
      assert r[|r| - 1] == Cleared(cache[keys[k]]);
    }
  }

  /**
   Scan order is kept: the export of keys scanned in two runs is the export of
   the first run followed by that of the second.
   */
  lemma {:induction false} ExportedKeepsScanOrder(a: seq<string>, b: seq<string>, cache: Cache)
    ensures Exported(a + b, cache) == Exported(a, cache) + Exported(b, cache)
    decreases |b|
  {
    if b == [] {
      assert a + b == a;
    } else {
      var init := b[..|b| - 1];
      var last := b[|b| - 1];
      var tail := if last in cache then [Cleared(cache[last])] else [];
      assert (a + b)[..|a + b| - 1] == a + init;
      assert (a + b)[|a + b| - 1] == last;
      assert Exported(a + b, cache) == Exported(a + init, cache) + tail;
      assert Exported(b, cache) == Exported(init, cache) + tail;
      ExportedKeepsScanOrder(a, init, cache);
    }
  }

  /** The listing's digest applied to every token of a list of sessions. */
  function HashTokens(us: seq<LoginUserInfo>, md5: string -> string): seq<LoginUserInfo> {
    seq(|us|, j requires 0 <= j < |us| => us[j].(accessToken := md5(us[j].accessToken)))
  }

  lemma HashTokensAppend(us: seq<LoginUserInfo>, u: LoginUserInfo, md5: string -> string)
    ensures HashTokens(us + [u], md5) == HashTokens(us, md5) + [u.(accessToken := md5(u.accessToken))]
  {
  }

  /**
   `QueryAsync`: collect the redacted sessions in scan order, skipping keys
   with no value, then take the requested page.
   */
  method Query(keys: seq<string>, cache: Cache, md5: string -> string,
               pageIndex: int, pageSize: int) returns (page: seq<LoginUserInfo>)
    ensures page == Page(HashTokens(Exported(keys, cache), md5), pageIndex, pageSize)
    ensures forall j :: 0 <= j < |page| ==>
              exists k :: 0 <= k < |keys| && keys[k] in cache && page[j] == Redacted(cache[keys[k]], md5)
    ensures (forall k :: 0 <= k < |keys| ==> keys[k] !in cache) ==> page == []
  {
    var users: seq<LoginUserInfo> := [];
    for i := 0 to |keys|
      invariant users == HashTokens(Exported(keys[..i], cache), md5)
    {
      assert keys[..i + 1][..i] == keys[..i];
      if keys[i] in cache {
        var u := cache[keys[i]];
        assert Exported(keys[..i + 1], cache) == Exported(keys[..i], cache) + [Cleared(u)];
        HashTokensAppend(Exported(keys[..i], cache), Cleared(u), md5);
        users := users + [Redacted(u, md5)];
      }
    }
    assert keys[..|keys|] == keys;
    page := [];
    if |users| > 0 {
      page := Take(Skip(users, (pageIndex - 1) * pageSize), pageSize);
    }
    PageFromCache(keys, cache, md5, pageIndex, pageSize);
  }

  /** Every entry of a listing page is a cached session, redacted. */
  lemma PageFromCache(keys: seq<string>, cache: Cache, md5: string -> string, pageIndex: int, pageSize: int)
    ensures var page := Page(HashTokens(Exported(keys, cache), md5), pageIndex, pageSize);
            forall j :: 0 <= j < |page| ==>
              exists k :: 0 <= k < |keys| && keys[k] in cache && page[j] == Redacted(cache[keys[k]], md5)
  {
    var e := Exported(keys, cache);
    var users := HashTokens(e, md5);
    var page := Page(users, pageIndex, pageSize);
    forall j | 0 <= j < |page|
      ensures exists k :: 0 <= k < |keys| && keys[k] in cache && page[j] == Redacted(cache[keys[k]], md5)
    {
      var start := Clamp((pageIndex - 1) * pageSize, |users|);
      assert page[j] == users[start + j] == e[start + j].(accessToken := md5(e[start + j].accessToken));
      assert FromCache(e[start + j], keys, cache);
      var k :| 0 <= k < |keys| && keys[k] in cache && e[start + j] == Cleared(cache[keys[k]]);
      assert page[j] == Redacted(cache[keys[k]], md5);
    }
  }

  /** The cache keys that forcing `ids` out removes. */
  predicate Dropped(key: string, ids: set<string>, onlineKey: string) {
    exists id :: id in ids && onlineKey + id == key
  }

  /** `DropOutAsync`: remove the key `onlineKey + id` for every given id, and nothing else. */
  method DropOut(cache: Cache, ids: set<string>, onlineKey: string) returns (c: Cache)
    ensures forall key :: key in c <==> key in cache && !Dropped(key, ids, onlineKey)
    ensures forall key :: key in c ==> c[key] == cache[key]
  {
    c := cache;
    var pending := ids;
    while pending != {}
      invariant pending <= ids
      invariant forall key :: key in c <==> key in cache && !Dropped(key, ids - pending, onlineKey)
      invariant forall key :: key in c ==> c[key] == cache[key]
      decreases pending
    {
      NonEmptyHasString(pending);
      var id :| id in pending;
      c := c - {onlineKey + id};
      pending := pending - {id};
    }
  }

  /** `DownloadAsync`: one cleared export per scanned key with a value, in scan order. */
  method Download(keys: seq<string>, cache: Cache) returns (exports: seq<LoginUserInfo>)
    ensures exports == Exported(keys, cache)
    ensures forall j :: 0 <= j < |exports| ==> exports[j].currentPermission.None?
  {
    exports := [];
    for i := 0 to |keys|
      invariant exports == Exported(keys[..i], cache)
    {
      assert keys[..i + 1][..i] == keys[..i];
      if keys[i] in cache {
        exports := exports + [Cleared(cache[keys[i]])];
      }
    }
    assert keys[..|keys|] == keys;
  }
}
