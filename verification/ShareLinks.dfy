/** Links to uploaded files: their expiry, and the cleaning up of those that are over (share-server/handler.go,
    share-server/store.go, share-server/cleanup.go). */
module ShareLinks {
  import opened Calendar
  import opened Options

  /** A row of the store; the expiry is kept as text. */
  datatype Link = Link(token: int, expires: string, active: bool, path: int)

  type Links = map<int, Link>

  const DEFAULT_DAYS := 7
  const MAX_DAYS := 30

  /** The expiry of an upload: the one asked for, or in 7 days if that cannot be read; at most in 30 days. */
  function Expiry(now: Instant, asked: Option<Instant>): (e: Instant)
    ensures e <= now + MAX_DAYS * DAY
  {
    var wanted := if asked.Some? then asked.value else now + DEFAULT_DAYS * DAY;
    if wanted > now + MAX_DAYS * DAY then now + MAX_DAYS * DAY else wanted
  }

  /** expires_at < datetime('now') OR is_active = 0 */
  predicate Selected(link: Link, now: Instant)
    requires Printable(now)
  {
    Less(link.expires, PrintNow(now)) || !link.active
  }

  function SelectedIds(links: Links, now: Instant): set<int>
    requires Printable(now)
  {
    set id | id in links && Selected(links[id], now)
  }

  function Paths(links: Links, ids: set<int>): set<int> {
    set id | id in ids && id in links :: links[id].path
  }

  /** `rows` is an answer to the query for the links that are over. */
  ghost predicate IsAnswer(links: Links, now: Instant, rows: seq<int>)
    requires Printable(now)
  {
    && (forall i, j :: 0 <= i < j < |rows| ==> rows[i] != rows[j])
    && (forall id :: id in rows ==> id in SelectedIds(links, now))
    && forall id :: id in SelectedIds(links, now) ==> id in rows
  }

  function Without(links: Links, ids: set<int>): Links {
    map id | id in links && id !in ids :: links[id]
  }

  predicate TokenTaken(links: Links, token: int) {
    exists id :: id in links && links[id].token == token
  }

  function Ids(rows: seq<int>): set<int> {
    set id | id in rows
  }

  /** The link is switched off, or the day of its expiry is past. */
  predicate Over(link: Link, now: Instant)
    requires Printable(now)
  {
    !link.active || Less(link.expires, PrintDate(DateOf(DayOf(now))) + " " + PrintClock(now / SECOND % 86400))
  }

  /** The rows that are over are gone unless their statements fail, and their files unless they are stuck; all else is
      as it was. */
  ghost predicate CleanedUp(before: Links, filesBefore: set<int>, after: Links, files: set<int>, now: Instant,
                            stuck: set<int>, fails: set<int>)
    requires Printable(now)
  {
    && (forall id :: id in after <==> id in before && (id in fails || !Over(before[id], now)))
    && (forall id :: id in after ==> after[id] == before[id])
    && (forall path :: path in files <==>
          && path in filesBefore
          && (path in stuck || forall id :: id in before && Over(before[id], now) ==> before[id].path != path))
  }

  lemma {:induction false} CleanUpSpelled(links: Links, files: set<int>, now: Instant, stuck: set<int>, fails: set<int>)
    requires Printable(now)
    ensures CleanedUp(links, files, Without(links, SelectedIds(links, now) - fails),
                      files - (Paths(links, SelectedIds(links, now)) - stuck), now, stuck, fails)
  {
    SelectedOver(links, now);
    hide Over, SelectedIds;
    forall path ensures path in Paths(links, SelectedIds(links, now)) <==>
                        exists id :: id in links && Over(links[id], now) && links[id].path == path {
    }
  }

  lemma {:induction false} SelectedOver(links: Links, now: Instant)
    requires Printable(now)
    ensures forall id :: id in SelectedIds(links, now) <==> id in links && Over(links[id], now)
  {
    hide Less, PrintDate, PrintClock, DateOf, DayOf;
  }

  lemma {:induction false} ExpirySpelled(now: Instant, asked: Option<Instant>)
    ensures var in7days, in30days := now + 7 * 86400 * 1_000_000_000, now + 30 * 86400 * 1_000_000_000;
            Expiry(now, asked) == if asked.None? then in7days else if asked.value <= in30days then asked.value
              else in30days
  {
  }

  class ShareServer {
    var links: Links
    var files: set<int>

    /** Fails if the token is taken. */
    method CreateShareLink(id: int, token: int, expiresAt: Instant, path: int) returns (ok: bool)
      requires id !in links && Printable(expiresAt)
      modifies this`links
      ensures ok <==> !TokenTaken(old(links), token)
      ensures links == if ok then old(links)[id := Link(token, PrintExpiry(expiresAt), true, path)] else old(links)
      ensures TokensUnique(old(links)) ==> TokensUnique(links)
    {
      ok := !TokenTaken(links, token);
      if ok {
        links := links[id := Link(token, PrintExpiry(expiresAt), true, path)];
      }
    }

    /** The file goes to a new path; `copied` tells whether it could be written whole. */
    method Upload(now: Instant, asked: Option<Instant>, id: int, token: int, path: int, copied: bool) returns (ok: bool)
      requires id !in links && path !in files && Printable(Expiry(now, asked))
      modifies this
      ensures ok <==> copied && !TokenTaken(old(links), token)
      ensures links == if ok then old(links)[id := Link(token, PrintExpiry(Expiry(now, asked)), true, path)]
              else old(links)
      ensures files == if ok || !copied then old(files) + {path} else old(files)
      ensures var in7days, in30days := now + 7 * 86400 * 1_000_000_000, now + 30 * 86400 * 1_000_000_000;
              Expiry(now, asked) == if asked.None? then in7days else if asked.value <= in30days then asked.value
                else in30days
      ensures TokensUnique(old(links)) ==> TokensUnique(links)
    {
      ExpirySpelled(now, asked);
      hide PrintExpiry, Printable;
      var expiresAt := now + DEFAULT_DAYS * DAY;
      if asked.Some? {
        expiresAt := asked.value;
      }
      var maxExpiry := now + MAX_DAYS * DAY;
      if expiresAt > maxExpiry {
        expiresAt := maxExpiry;
      }
      files := files + {path};
      if !copied {
        return false;
      }
      ok := CreateShareLink(id, token, expiresAt, path);
      if !ok {
        files := files - {path};
      }
    }

    method PurgeLink(id: int, fails: set<int>)
      modifies this`links
      ensures links == Without(old(links), {id} - fails)
      ensures links == if id in fails then old(links) else old(links) - {id}
    {
      if id !in fails {
        links := links - {id};
      }
    }

    /** `stuck` are the files that cannot be removed, `fails` the links whose rows cannot. */
    method Cleanup(now: Instant, rows: seq<int>, stuck: set<int>, fails: set<int>)
      requires Printable(now) && IsAnswer(links, now, rows)
      modifies this
      ensures links == Without(old(links), SelectedIds(old(links), now) - fails)
      ensures files == old(files) - (Paths(old(links), SelectedIds(old(links), now)) - stuck)
      ensures TokensUnique(old(links)) ==> TokensUnique(links)
      ensures CleanedUp(old(links), old(files), links, files, now, stuck, fails)
    {
      hide Paths, Without, Selected, SelectedIds, Ids, IsAnswer, CleanedUp, Printable, TokensUnique;
      CleanUpSpelled(links, files, now, stuck, fails);
      ghost var was := links;
      NoRows(was, rows, fails);
      AllRows(was, now, rows);
      var paths := map id | id in rows :: links[id].path;
      for i := 0 to |rows|
        invariant links == Without(was, Ids(rows[..i]) - fails)
        invariant files == old(files) - (Paths(was, Ids(rows[..i])) - stuck)
      {
        var id := rows[i];
        assert id in rows && id in was;
        MoreRows(was, rows, i, fails);
        if paths[id] !in stuck {
          files := files - {paths[id]};
        }
        PurgeLink(id, fails);
      }
      assert rows[..|rows|] == rows;
      if TokensUnique(was) {
        WithoutUnique(was, SelectedIds(was, now) - fails);
      }
    }

    /** A request to delete takes the row of the token away, unless its statement fails, and its file, unless it is
        stuck. */
    method Delete(token: int, stuck: set<int>, fails: bool) returns (found: bool)
      requires TokensUnique(links)
      modifies this
      ensures found <==> TokenTaken(old(links), token)
      ensures links == if fails then old(links) else Removed(old(links), token)
      ensures files == old(files) - (Paths(old(links), WithToken(old(links), token)) - stuck)
      ensures TokensUnique(links)
      ensures forall id :: id in links <==> id in old(links) && (fails || old(links)[id].token != token)
      ensures forall id :: id in links ==> links[id] == old(links)[id]
      ensures forall id :: id in old(links) && old(links)[id].token == token ==>
                files == old(files) - ({old(links)[id].path} - stuck)
    {
      NoToken(links, token);
      if id :| id in links && links[id].token == token {
        OnlyOne(links, token, id);
        if links[id].path !in stuck {
          files := files - {links[id].path};
        }
        if !fails {
          links := links - {id};
        }
        return true;
      }
      return false;
    }
  }

  /** token is UNIQUE */
  predicate TokensUnique(links: Links) {
    forall a, b :: a in links && b in links && links[a].token == links[b].token ==> a == b
  }

  function WithToken(links: Links, token: int): set<int> {
    set id | id in links && links[id].token == token
  }

  lemma {:induction false} NoToken(links: Links, token: int)
    ensures !TokenTaken(links, token) ==> Removed(links, token) == links && Paths(links, WithToken(links, token)) == {}
  {
    if !TokenTaken(links, token) {
      assert forall id :: id in links ==> links[id].token != token;
      assert WithToken(links, token) == {};
    }
  }

  lemma {:induction false} WithoutUnique(links: Links, ids: set<int>)
    requires TokensUnique(links)
    ensures TokensUnique(Without(links, ids))
  {
  }

  lemma {:induction false} OnlyOne(links: Links, token: int, id: int)
    requires TokensUnique(links) && id in links && links[id].token == token
    ensures Removed(links, token) == links - {id} && Paths(links, WithToken(links, token)) == {links[id].path}
  {
    assert forall x :: x in Removed(links, token) <==> x in links && x != id;
    assert WithToken(links, token) == {id};
    assert Paths(links, {id}) == {links[id].path} by {
      assert id in {id};
    }
  }

  lemma {:induction false} NoRows(links: Links, rows: seq<int>, fails: set<int>)
    ensures Without(links, Ids(rows[..0]) - fails) == links && Paths(links, Ids(rows[..0])) == {}
  {
  }

  lemma {:induction false} MoreRows(links: Links, rows: seq<int>, i: nat, fails: set<int>)
    requires i < |rows| && rows[i] in links
    ensures Without(Without(links, Ids(rows[..i]) - fails), {rows[i]} - fails) ==
            Without(links, Ids(rows[..i + 1]) - fails)
    ensures Paths(links, Ids(rows[..i + 1])) == Paths(links, Ids(rows[..i])) + {links[rows[i]].path}
  {
    assert rows[..i + 1] == rows[..i] + [rows[i]];
    assert Ids(rows[..i + 1]) == Ids(rows[..i]) + {rows[i]};
    MorePaths(links, Ids(rows[..i]), rows[i]);
  }

  lemma {:induction false} MorePaths(links: Links, ids: set<int>, id: int)
    requires id in links
    ensures Paths(links, ids + {id}) == Paths(links, ids) + {links[id].path}
  {
    forall p | p in Paths(links, ids + {id}) ensures p in Paths(links, ids) + {links[id].path} {
      var x :| x in ids + {id} && x in links && links[x].path == p;
    }
    forall p | p in Paths(links, ids) + {links[id].path} ensures p in Paths(links, ids + {id}) {
      if p in Paths(links, ids) {
        var x :| x in ids && x in links && links[x].path == p;
        assert x in ids + {id};
      } else {
        assert id in ids + {id};
      }
    }
  }

  lemma {:induction false} AllRows(links: Links, now: Instant, rows: seq<int>)
    requires Printable(now) && IsAnswer(links, now, rows)
    ensures Ids(rows) == SelectedIds(links, now)
    ensures forall id :: id in rows ==> id in links
  {
    hide Selected;
    forall id ensures id in Ids(rows) <==> id in SelectedIds(links, now) {
      assert id in Ids(rows) <==> id in rows;
    }
  }

  function Removed(links: Links, token: int): Links {
    map id | id in links && links[id].token != token :: links[id]
  }

  function Deactivated(links: Links, token: int): Links {
    map id | id in links :: if links[id].token == token then links[id].(active := false) else links[id]
  }
}
