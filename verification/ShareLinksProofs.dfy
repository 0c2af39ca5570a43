/** When links are purged: never while they are open, and in time. */
module ShareLinksProofs {
  import opened Calendar
  import opened Options
  import opened ShareLinks

  /** The link's page and file are served: it is active, and its expiry, read back in whole seconds, is not before
      now. */
  predicate Open(link: Link, expiry: Instant, now: Instant) {
    link.active && expiry / SECOND * SECOND >= now
  }

  /** The cleaning up takes a link exactly when it is inactive or the UTC date has passed its expiry's date. */
  lemma {:induction false} SelectedExactly(link: Link, expiry: Instant, now: Instant)
    requires Printable(expiry) && Printable(now) && link.expires == PrintExpiry(expiry)
    ensures Selected(link, now) <==> !link.active || DayOf(expiry) < DayOf(now)
  {
    LessExactly(expiry, now);
  }

  /** No open link is taken. */
  lemma {:induction false} OpenStays(link: Link, expiry: Instant, now: Instant)
    requires Printable(expiry) && Printable(now) && link.expires == PrintExpiry(expiry) && Open(link, expiry, now)
    ensures !Selected(link, now)
  {
    SelectedExactly(link, expiry, now);
    assert expiry / SECOND * SECOND <= expiry;
    LaterDay(now, expiry);
  }

  /** A link that is over can stay until the date changes. */
  lemma {:induction false} OverButKept(link: Link, expiry: Instant, now: Instant)
    requires Printable(expiry) && Printable(now) && link.expires == PrintExpiry(expiry) && link.active
    ensures !Open(link, expiry, now) && !Selected(link, now) <==>
              expiry / SECOND * SECOND < now && DayOf(expiry) >= DayOf(now)
  {
    SelectedExactly(link, expiry, now);
  }

  // ---------------------------------------------------------------- files left behind

  predicate PathsUnique(links: Links) {
    forall a, b :: a in links && b in links && links[a].path == links[b].path ==> a == b
  }

  predicate Orphan(links: Links, files: set<int>, path: int) {
    path in files && forall id :: id in links ==> links[id].path != path
  }

  /** A cleaning up leaves a link's file behind without a row if and only if the row is purged and the file's removal
      fails; and a row without its file if and only if it is the other way round. */
  lemma {:induction false} LeftBehind(links: Links, files: set<int>, now: Instant, stuck: set<int>, fails: set<int>,
                                      id: int)
    requires Printable(now) && PathsUnique(links) && id in links && links[id].path in files
    ensures var selected, path := SelectedIds(links, now), links[id].path;
            var after, left := Without(links, selected - fails), files - (Paths(links, selected) - stuck);
            && (Orphan(after, left, path) <==> id in selected && id !in fails && path in stuck)
            && (id in after && path !in left <==> id in selected && id in fails && path !in stuck)
  {
    var selected, path := SelectedIds(links, now), links[id].path;
    var after := Without(links, selected - fails);
    assert path in Paths(links, selected) <==> id in selected by {
      if id in selected {
        assert links[id].path in Paths(links, selected);
      }
    }
    assert id in after ==> after[id].path == path;
    assert forall x :: x in after ==> x in links && after[x] == links[x];
  }

  /** No cleaning up, then or later, finds such a file again. */
  lemma {:induction false} OrphanStays(links: Links, files: set<int>, now: Instant, stuck: set<int>, fails: set<int>,
                                       path: int)
    requires Printable(now) && Orphan(links, files, path)
    ensures Orphan(Without(links, SelectedIds(links, now) - fails),
            files - (Paths(links, SelectedIds(links, now)) - stuck), path)
  {
  }

  // ---------------------------------------------------------------- runs

  /** What can happen to the store. */
  datatype Event =
    | Upload(now: Instant, asked: Option<Instant>, id: int, token: int, path: int)
    | Delete(token: int)
    | Deactivate(token: int)
    | Cleanup(now: Instant, fails: set<int>)

  predicate Fits(e: Event) {
    match e
    case Upload(now, asked, _, _, _) => Printable(Expiry(now, asked))
    case Cleanup(now, _) => Printable(now)
    case _ => true
  }

  function Next(links: Links, e: Event): Links
    requires Fits(e)
  {
    match e
    case Upload(now, asked, id, token, path) =>
      if id in links || TokenTaken(links, token) then links
      else links[id := Link(token, PrintExpiry(Expiry(now, asked)), true, path)]
    case Delete(token) => Removed(links, token)
    case Deactivate(token) => Deactivated(links, token)
    case Cleanup(now, fails) => Without(links, SelectedIds(links, now) - fails)
  }

  predicate AllFit(events: seq<Event>) {
    forall i :: 0 <= i < |events| ==> Fits(events[i])
  }

  function After(links: Links, events: seq<Event>): Links
    requires AllFit(events)
    decreases |events|
  {
    if events == [] then links else After(Next(links, events[0]), events[1..])
  }

  /** Nobody deletes or deactivates the token, and no cleaning up runs on a day after `day`. */
  predicate LeftAlone(events: seq<Event>, token: int, day: nat) {
    forall i :: 0 <= i < |events| ==>
      match events[i]
      case Upload(_, _, _, _, _) => true
      case Delete(t) => t != token
      case Deactivate(t) => t != token
      case Cleanup(now, _) => DayOf(now) <= day
  }

  /** A link that nobody deletes or deactivates stays as it is through the whole day of its expiry. */
  lemma {:induction false} StaysUntilExpiry(links: Links, events: seq<Event>, id: int, expiry: Instant)
    requires AllFit(events) && id in links && Printable(expiry)
    requires links[id].active && links[id].expires == PrintExpiry(expiry)
    requires LeftAlone(events, links[id].token, DayOf(expiry))
    ensures id in After(links, events) && After(links, events)[id] == links[id]
    decreases |events|
  {
    if events != [] {
      var e := events[0];
      if e.Cleanup? {
        SelectedExactly(links[id], expiry, e.now);
      }
      assert id in Next(links, e) && Next(links, e)[id] == links[id];
      StaysUntilExpiry(Next(links, e), events[1..], id, expiry);
    }
  }

  /** No event uploads under this id: the ids of uploads are new ones. */
  predicate NotUploaded(events: seq<Event>, id: int) {
    forall i :: 0 <= i < |events| ==> !(events[i].Upload? && events[i].id == id)
  }

  /** The link is gone, or it still has the expiry of its upload. */
  predicate GoneOrSame(links: Links, id: int, expires: string) {
    id in links ==> links[id].expires == expires
  }

  lemma {:induction false} StaysGone(links: Links, events: seq<Event>, id: int)
    requires AllFit(events) && NotUploaded(events, id) && id !in links
    ensures id !in After(links, events)
    decreases |events|
  {
    if events != [] {
      StaysGone(Next(links, events[0]), events[1..], id);
    }
  }

  /** A cleaning up on a later day than the expiry's, whose removal of the row does not fail, takes the link for
      good. */
  lemma {:induction false} GoneAfterCleanup(links: Links, events: seq<Event>, id: int, expiry: Instant, k: nat)
    requires AllFit(events) && NotUploaded(events, id) && Printable(expiry)
             && GoneOrSame(links, id, PrintExpiry(expiry))
    requires k < |events| && events[k].Cleanup? && id !in events[k].fails && DayOf(expiry) < DayOf(events[k].now)
    ensures id !in After(links, events)
    decreases k
  {
    var next := Next(links, events[0]);
    if k == 0 {
      if id in links {
        SelectedExactly(links[id], expiry, events[0].now);
      }
      StaysGone(next, events[1..], id);
    } else {
      GoneAfterCleanup(next, events[1..], id, expiry, k - 1);
    }
  }

  /** Thirty-one days after an upload the date is past its expiry's. */
  lemma {:induction false} ExpiryWithin(now: Instant, asked: Option<Instant>, later: Instant)
    requires later >= now + 31 * DAY
    ensures DayOf(Expiry(now, asked)) < DayOf(later)
  {
    LaterDay(Expiry(now, asked), now + 30 * DAY);
    DaysLater(now, 30);
    DaysLater(now, 31);
    LaterDay(now + 31 * DAY, later);
  }

  /** The cleanings up follow each other after at most `gap`: the interval and the time one takes. */
  predicate Spaced(times: seq<Instant>, gap: nat) {
    forall i :: 0 < i < |times| ==> times[i - 1] <= times[i] <= times[i - 1] + gap
  }

  lemma {:induction false} SomeInTime(times: seq<Instant>, gap: nat, due: Instant) returns (k: nat)
    requires Spaced(times, gap) && times != [] && times[0] <= due <= times[|times| - 1]
    ensures k < |times| && due <= times[k] <= due + gap
  {
    k := 0;
    while times[k] < due
      invariant k < |times| && times[k] <= due + gap
      decreases |times| - k
    {
      k := k + 1;
    }
  }

  function CleanupTimes(events: seq<Event>): seq<Instant> {
    if events == [] then [] else
    (if events[0].Cleanup? then [events[0].now] else []) + CleanupTimes(events[1..])
  }

  lemma {:induction false} EventOfTime(events: seq<Event>, k: nat) returns (j: nat)
    requires k < |CleanupTimes(events)|
    ensures j < |events| && events[j].Cleanup? && events[j].now == CleanupTimes(events)[k]
  {
    if events[0].Cleanup? && k == 0 {
      j := 0;
    } else {
      var i := EventOfTime(events[1..], if events[0].Cleanup? then k - 1 else k);
      j := i + 1;
    }
  }

  /** Every uploaded link is purged within 31 days and one interval of its upload: in every run that goes on so long,
      with cleanings up at most `gap` apart and none failing, one in that time takes it, and it does not come back. */
  lemma {:induction false} PurgedInTime(links: Links, upload: Event, events: seq<Event>, gap: nat) returns (j: nat)
    requires upload.Upload? && AllFit([upload] + events) && upload.id !in links && NotUploaded(events, upload.id)
    requires forall i :: 0 <= i < |events| && events[i].Cleanup? ==> events[i].fails == {}
    requires var times := CleanupTimes(events);
             Spaced(times, gap) && times != [] && times[0] <= upload.now + 31 * DAY <= times[|times| - 1]
    ensures j < |events| && events[j].Cleanup? && events[j].now <= upload.now + 31 * DAY + gap
    ensures Fits(upload)
    ensures forall n :: j < n <= |events| && AllFit(events[..n]) ==>
            upload.id !in After(Next(links, upload), events[..n])
  {
    var due := upload.now + 31 * DAY;
    assert ([upload] + events)[0] == upload;
    forall i | 0 <= i < |events| ensures Fits(events[i]) {
      assert ([upload] + events)[i + 1] == events[i];
    }
    var k := SomeInTime(CleanupTimes(events), gap, due);
    j := EventOfTime(events, k);
    var expiry := Expiry(upload.now, upload.asked);
    ExpiryWithin(upload.now, upload.asked, events[j].now);
    forall n | j < n <= |events| && AllFit(events[..n])
      ensures upload.id !in After(Next(links, upload), events[..n])
    {
      GoneAfterCleanup(Next(links, upload), events[..n], upload.id, expiry, j);
    }
  }
}
