/** What the answers of the C library make of one do_item_alloc: they are given one by one, as requests
    are made, and decide together with the state before the call what it evicts and whether it fails. */
module LruAnswers {
  import opened Basics
  import opened Items
  import opened SizeClasses
  import opened SlabModel
  import opened CacheModel
  import opened CacheInv
  import opened CacheAlloc
  import opened CacheEvict
  import opened CacheAllocProofs
  import opened CacheExact
  import opened LruQueues
  import SlabAlloc

  /** A chunk that has been handed out and has no header yet. */
  ghost predicate FreeChunk(c: Cache, p: Ptr) {
    p in c.items && c.items[p].clsid == 0 && p !in c.table && All(c.queues) == c.table && |c.queues| == POWER_LARGEST
  }

  lemma FreeChunkKnown(c: Cache, p: Ptr)
    requires FreeChunk(c, p)
    ensures p in c.items
  {
  }

  lemma TakenIsFree(s: Cache, ntotal: nat, id: nat, g: Grant)
    requires Inv(s) && 1 <= id && Granted(s, id, g) && SlabsAlloc(s, ntotal, id, g).1.Some?
    ensures FreeChunk(SlabsAlloc(s, ntotal, id, g).0, SlabsAlloc(s, ntotal, id, g).1.value)
  {
    MembersDisjoint(s);
    AllocTakes(s, ntotal, id, g);
    var (d, r) := SlabsAlloc(s, ntotal, id, g);
    hide Homes, Sized, Keys, Sorted, Config, SlabsAlloc, Taken, All, Members, LiveBut;
    InitHeader(s, d, r.value, id, ntotal);
  }

  lemma AfterFailure(c: Cache, ntotal: nat, id: nat, g: Grant, mal: Mallocs)
    requires Inv(c) && 1 <= id && Granted(c, id, g) && SlabsAlloc(c, ntotal, id, g).1 == None
    requires PlacesOk(c.slabs, id, mal)
    ensures var d := SlabsAlloc(c, ntotal, id, g).0;
      && Inv(d) && |d.slabs.classes| == |c.slabs.classes| && PlacesOk(d.slabs, id, mal)
      && d.clock == c.clock && d.queues == c.queues
  {
    FailKeeps(c, ntotal, id, g);
    FailPlaces(c, ntotal, id, g);
    hide Inv, SlabsAlloc, PlacesOk, GrantOk;
    SamePlacesOk(c.slabs, SlabsAlloc(c, ntotal, id, g).0.slabs, id, mal);
  }

  lemma EvictClock(c: Cache, id: nat, grow: bool)
    requires Inv(c) && id < POWER_LARGEST
    ensures Inv(Evict(c, id, grow)) && Evict(c, id, grow).clock == c.clock
  {
    MembersLength(c);
    hide Inv, Evict, LastIdle;
    EvictKeeps(c, id, grow);
  }

  lemma PlacesAre(s: Slabs, id: nat, mal: Mallocs)
    requires id < |s.classes| && PlacesOk(s, id, mal)
    ensures SlabAlloc.PlaceOk(s, id, mal.first.base) && SlabAlloc.PlaceOk(s, id, mal.second.base)
    ensures SlabAlloc.PlaceOk(s, id, mal.third.base)
  {
  }

  /** The grants that were made are those AnswersOk asks for; a request that was not made was granted
      nothing. */
  lemma AnswersAre(c: Cache, ntotal: nat, id: nat, now: nat, ans: Answers)
    requires id < |c.slabs.classes| && Granted(c, id, ans.grant1)
    requires ans.grant2 == NoList || Granted(Stage2(c, ntotal, id, ans), id, ans.grant2)
    requires ans.grant3 == NoList || Granted(Stage3(c, ntotal, id, now, ans), id, ans.grant3)
    ensures AnswersOk(c, ntotal, id, now, ans)
  {
    hide SlabsAlloc, Evict, Repair;
  }

  /** The answers of the C library to one do_item_alloc. */
  datatype Mallocs = Mallocs(
    first: SlabAlloc.Malloc, grow1: bool, second: SlabAlloc.Malloc, grow2: bool, third: SlabAlloc.Malloc)

  /** Each grant is what the C library's answer makes of the request, if the request is made; so the
      answers are fixed by `mal` and the state before the call (but for which new objects a page has). */
  ghost predicate Determined(c: Cache, ntotal: nat, id: nat, now: nat, mal: Mallocs, ans: Answers)
    requires id < |c.slabs.classes| && id < |c.queues|
  {
    && ans.grow1 == mal.grow1 && ans.grow2 == mal.grow2
    && SlabAlloc.AnsweredBy(c.slabs, id, mal.first, ans.grant1)
    && if SlabsAlloc(c, ntotal, id, ans.grant1).1.Some? || c.queues[id] == [] then ans.grant2 == ans.grant3 == NoList
       else
         var s := Stage2(c, ntotal, id, ans);
         && SlabAlloc.AnsweredBy(s.slabs, id, mal.second, ans.grant2)
         && if SlabsAlloc(s, ntotal, id, ans.grant2).1.Some? then ans.grant3 == NoList
            else SlabAlloc.AnsweredBy(Stage3(c, ntotal, id, now, ans).slabs, id, mal.third, ans.grant3)
  }

  // ---------------------------------------------------------------- what the answers of the C library decide

  /** There is room in the page list of the class, or one of the answers so far makes it. */
  predicate ListRoom(s: Slabs, id: nat)
    requires id < |s.classes|
  {
    |s.classes[id].pages| != s.classes[id].listSize
  }

  function GrantOf(comes: bool): Grant {
    if comes then NewPage(Page(0, [])) else NoPage
  }

  /** Answers that stand for the C library's: a request for a page, if it is made, yields one exactly if
      the limit allows it, the page list has or gets room (it keeps the room it gets), and malloc
      succeeds. */
  function Expected(s: Slabs, id: nat, mal: Mallocs): Answers
    requires id < |s.classes|
  {
    var room1 := ListRoom(s, id) || mal.first.listOk;
    var room2 := room1 || mal.second.listOk;
    var room3 := room2 || mal.third.listOk;
    Answers(GrantOf(!Refused(s, id) && room1 && mal.first.pageOk), mal.grow1,
            GrantOf(!Refused(s, id) && room2 && mal.second.pageOk), mal.grow2,
            GrantOf(!Refused(s, id) && room3 && mal.third.pageOk))
  }

  lemma AnsweredPage(s: Slabs, id: nat, mal: SlabAlloc.Malloc, g: Grant)
    requires id < |s.classes| && !HasChunk(s.classes[id]) && SlabAlloc.AnsweredBy(s, id, mal, g)
    ensures PageComes(s, id, g) <==> !Refused(s, id) && (ListRoom(s, id) || mal.listOk) && mal.pageOk
  {
    hide Refused;
  }

  /** A request that fails leaves the page list with the room that realloc has made. */
  lemma FailListRoom(c: Cache, ntotal: nat, id: nat, mal: SlabAlloc.Malloc, g: Grant)
    requires Inv(c) && 1 <= id && Granted(c, id, g) && SlabAlloc.AnsweredBy(c.slabs, id, mal, g)
    requires SlabsAlloc(c, ntotal, id, g).1 == None && !Refused(c.slabs, id)
    ensures var d := SlabsAlloc(c, ntotal, id, g).0;
      id < |d.slabs.classes| && (ListRoom(d.slabs, id) <==> ListRoom(c.slabs, id) || mal.listOk)
  {
    PerslabOk(c, id);
    hide Inv, WithSlabs, TakeFrom, Refused;
  }

  lemma UnlinkListRoom(c: Cache, p: Ptr, grow: bool, id: nat)
    requires Known(c, p) && id < |c.slabs.classes|
    ensures id < |Unlink(c, p, grow).slabs.classes| && ListRoom(Unlink(c, p, grow).slabs, id) == ListRoom(c.slabs, id)
  {
    hide Without;
  }

  lemma EvictListRoom(c: Cache, id: nat, grow: bool)
    requires id < |c.slabs.classes|
    ensures ListRoom(Evict(c, id, grow).slabs, id) == ListRoom(c.slabs, id)
  {
    hide Unlink, ListRoom;
    if QueueKnown(c, id) {
      var i := LastIdle(c.items, c.queues[id], SEARCH_ITEMS);
      if i.Some? {
        assert Known(c, c.queues[id][i.value]);
        UnlinkListRoom(c, c.queues[id][i.value], grow, id);
      }
    }
  }

  lemma RepairListRoom(c: Cache, id: nat, now: nat, grow: bool)
    requires id < |c.slabs.classes|
    ensures ListRoom(Repair(c, id, now, grow).slabs, id) == ListRoom(c.slabs, id)
  {
    hide Unlink, ListRoom;
    if QueueKnown(c, id) {
      var i := LastExpired(c.items, c.queues[id], SEARCH_ITEMS, now);
      if i.Some? {
        var v := c.queues[id][i.value];
        assert Known(c, v);
        UnlinkListRoom(Zero(c.(clock := now), v), v, grow, id);
      }
    }
  }

  lemma SameRefused(s: Slabs, s': Slabs, id: nat)
    requires SamePlaces(s, s') && id < |s.classes|
    ensures Refused(s', id) == Refused(s, id)
  {
  }

  /** The answers that were given decide as the expected ones do: what is evicted, and whether the call
      fails. */
  lemma DecidedByMallocs(c: Cache, ntotal: nat, id: nat, now: nat, mal: Mallocs, ans: Answers)
    requires Inv(c) && c.clock <= now && 1 <= id && AnswersOk(c, ntotal, id, now, ans)
    requires id < |c.queues| && Determined(c, ntotal, id, now, mal, ans)
    ensures var x := Expected(c.slabs, id, mal);
      && First(c, id, ans) == First(c, id, x) && Second(c, id, now, ans) == Second(c, id, now, x)
      && (Fails(c, id, now, ans) <==> Fails(c, id, now, x))
  {
    hide Inv, HasChunk, IdleIn, ExpiredIn, Without, PageComes, Granted, SlabsAlloc, Evict, Repair, SlabAlloc.AnsweredBy,
      Expected;
    FirstDecided(c, ntotal, id, now, mal, ans);
    if !Direct(c, id, ans) && c.queues[id] != [] {
      NothingFirst(c, ntotal, id, ans);
      if !(First(c, id, ans).Some? && RoomFor(c, id, ans.grow1)) {
        SecondDecided(c, ntotal, id, now, mal, ans);
      }
    }
  }

  /** What a call comes to, by the state before it and the answers of the C library alone: whether it
      fails, and what it evicts. */
  ghost predicate AllocOutcome(
    c: Cache, key: seq<byte>, nbytes: nat, now: nat, mal: Mallocs, e: Cache, failed: bool)
  {
    |c.slabs.classes| >= 2 &&
    var id := ClassFor(ClassSizes(c.slabs), HEADER + |key| + nbytes);
    if id == 0 then failed && e == c
    else
      && id < |c.queues|
      && (failed <==> Fails(c, id, now, Expected(c.slabs, id, mal)))
      && e.table == c.table - Victims(c, id, now, Expected(c.slabs, id, mal))
  }

  lemma OutcomeByMallocs(c: Cache, key: seq<byte>, nbytes: nat, now: nat, mal: Mallocs, ans: Answers)
    requires Inv(c) && c.clock <= now && |c.slabs.classes| >= 2 && |c.queues| == POWER_LARGEST
    requires ClassFor(ClassSizes(c.slabs), HEADER + |key| + nbytes) < |c.queues|
    requires ClassFor(ClassSizes(c.slabs), HEADER + |key| + nbytes) != 0
    requires var id := ClassFor(ClassSizes(c.slabs), HEADER + |key| + nbytes);
      && AnswersOk(c, HEADER + |key| + nbytes, id, now, ans)
      && Determined(c, HEADER + |key| + nbytes, id, now, mal, ans)
    ensures var (e, r) := CacheModel.ItemAlloc(c, key, nbytes, now, ans);
      AllocOutcome(c, key, nbytes, now, mal, e, r == None)
  {
    hide Inv, CacheModel.ItemAlloc, AnswersOk, ClassFor, Determined, Fails, First, Second, Expected;
    var id := ClassFor(ClassSizes(c.slabs), HEADER + |key| + nbytes);
    ItemAllocExactly(c, key, nbytes, now, ans);
    DecidedByMallocs(c, HEADER + |key| + nbytes, id, now, mal, ans);
  }

  /** The limit refuses no class its first page: if the class has neither chunk nor page, realloc and malloc
      decide alone, and nothing is evicted when they have memory. */
  lemma FirstPageIsGranted(
    c: Cache, key: seq<byte>, nbytes: nat, now: nat, mal: Mallocs, e: Cache, failed: bool, id: nat)
    requires AllocOutcome(c, key, nbytes, now, mal, e, failed)
    requires 0 < id && id == ClassFor(ClassSizes(c.slabs), 48 + |key| + nbytes)
    requires c.slabs.classes[id].pages == [] && (c.slabs.classes[id].listSize != 0 || mal.first.listOk)
    requires mal.first.pageOk
    ensures !failed && e.table == c.table
  {
    hide ClassFor, IdleIn, ExpiredIn, Without;
    assert Direct(c, id, Expected(c.slabs, id, mal));
    assert Only(None) == {};
  }

  lemma ExpectedPages(s: Slabs, id: nat, mal: Mallocs)
    requires id < |s.classes|
    ensures var x := Expected(s, id, mal); var room := ListRoom(s, id) || mal.first.listOk;
      && x.grow1 == mal.grow1 && x.grow2 == mal.grow2
      && (PageComes(s, id, x.grant1) <==> !Refused(s, id) && room && mal.first.pageOk)
      && (PageComes(s, id, x.grant2) <==> !Refused(s, id) && (room || mal.second.listOk) && mal.second.pageOk)
      && (PageComes(s, id, x.grant3) <==>
            !Refused(s, id) && (room || mal.second.listOk || mal.third.listOk) && mal.third.pageOk)
  {
    hide Refused, ListRoom;
  }

  lemma FirstDecided(c: Cache, ntotal: nat, id: nat, now: nat, mal: Mallocs, ans: Answers)
    requires Inv(c) && 1 <= id && AnswersOk(c, ntotal, id, now, ans)
    requires id < |c.queues| && Determined(c, ntotal, id, now, mal, ans)
    ensures var x := Expected(c.slabs, id, mal);
      && x.grow1 == ans.grow1 && x.grow2 == ans.grow2
      && Direct(c, id, x) == Direct(c, id, ans)
  {
    hide Inv, HasChunk, PageComes, Granted, SlabsAlloc, Evict, Repair, SlabAlloc.AnsweredBy, Expected, ListRoom;
    ExpectedPages(c.slabs, id, mal);
    if !HasChunk(c.slabs.classes[id]) {
      AnsweredPage(c.slabs, id, mal.first, ans.grant1);
    }
  }

  lemma NothingFirst(c: Cache, ntotal: nat, id: nat, ans: Answers)
    requires Inv(c) && 1 <= id && Granted(c, id, ans.grant1) && !Direct(c, id, ans)
    ensures SlabsAlloc(c, ntotal, id, ans.grant1).1 == None && id < |c.queues|
    ensures var s := SlabsAlloc(c, ntotal, id, ans.grant1).0;
      Mid(c, s, id, {}) && s.queues == c.queues && s.clock == c.clock
  {
    hide Inv, HasChunk, PageComes, GrantOk, SlabsAlloc;
    MembersLength(c);
    AllocGives(c, ntotal, id, ans.grant1);
    StartMid(c, id);
    MidFails(c, c, id, {}, ntotal, ans.grant1);
  }

  lemma SecondDecided(c: Cache, ntotal: nat, id: nat, now: nat, mal: Mallocs, ans: Answers)
    requires Inv(c) && c.clock <= now && 1 <= id && AnswersOk(c, ntotal, id, now, ans)
    requires id < |c.queues| && Determined(c, ntotal, id, now, mal, ans)
    requires !Direct(c, id, ans) && c.queues[id] != [] && !(First(c, id, ans).Some? && RoomFor(c, id, ans.grow1))
    requires SlabsAlloc(c, ntotal, id, ans.grant1).1 == None
    requires var s := SlabsAlloc(c, ntotal, id, ans.grant1).0;
      Mid(c, s, id, {}) && s.queues == c.queues && s.clock == c.clock
    ensures var x := Expected(c.slabs, id, mal);
      && PageComes(c.slabs, id, x.grant2) == PageComes(c.slabs, id, ans.grant2)
      && (!PageComes(c.slabs, id, ans.grant2) && !(Second(c, id, now, ans).Some? && RoomFor(c, id, ans.grow2)) ==>
            PageComes(c.slabs, id, x.grant3) == PageComes(c.slabs, id, ans.grant3))
  {
    hide Inv, HasChunk, IdleIn, ExpiredIn, Without, PageComes, Granted, SlabsAlloc, Evict, Repair, SlabAlloc.AnsweredBy,
      Expected, ListRoom, Refused;
    var s := SlabsAlloc(c, ntotal, id, ans.grant1).0;
    FirstSearch(c, s, id, ans.grow1);
    EvictListRoom(s, id, ans.grow1);
    var e, gone := Evict(s, id, ans.grow1), Only(First(c, id, ans));
    assert e == Stage2(c, ntotal, id, ans) && Mid(c, e, id, gone);
    ExpectedPages(c.slabs, id, mal);
    if !Refused(c.slabs, id) {
      FailListRoom(c, ntotal, id, mal.first, ans.grant1);
    }
    MidAnswered(c, e, id, gone, mal.second, ans.grant2);
    AllocGives(e, ntotal, id, ans.grant2);
    MidPage(c, e, id, gone, ans.grant2);
    if !PageComes(c.slabs, id, ans.grant2) {
      ThirdDecided(c, e, ntotal, id, gone, now, mal, ans);
    }
  }

  /** A request in a state between the searches, in terms of the state at the start. */
  lemma MidAnswered(c: Cache, s: Cache, id: nat, gone: set<Ptr>, mal: SlabAlloc.Malloc, g: Grant)
    requires Mid(c, s, id, gone) && SlabAlloc.AnsweredBy(s.slabs, id, mal, g)
    ensures PageComes(c.slabs, id, g) <==> !Refused(c.slabs, id) && (ListRoom(s.slabs, id) || mal.listOk) && mal.pageOk
  {
    hide Inv, HasChunk, PageComes, SlabAlloc.AnsweredBy, ListRoom, Refused, SamePlaces;
    AnsweredPage(s.slabs, id, mal, g);
    MidPage(c, s, id, gone, g);
    SameRefused(c.slabs, s.slabs, id);
  }

  lemma ThirdDecided(c: Cache, e: Cache, ntotal: nat, id: nat, gone: set<Ptr>, now: nat, mal: Mallocs, ans: Answers)
    requires Mid(c, e, id, gone) && e.clock <= now && Granted(e, id, ans.grant2)
    requires SlabAlloc.AnsweredBy(e.slabs, id, mal.second, ans.grant2)
    requires SlabsAlloc(e, ntotal, id, ans.grant2).1 == None
    requires !Refused(c.slabs, id) ==> (ListRoom(e.slabs, id) <==> ListRoom(c.slabs, id) || mal.first.listOk)
    requires var c4 := Repair(SlabsAlloc(e, ntotal, id, ans.grant2).0, id, now, ans.grow2);
      id < |c4.slabs.classes| && SlabAlloc.AnsweredBy(c4.slabs, id, mal.third, ans.grant3)
    ensures var w := ExpiredIn(c.items, e.queues[id], now);
      !(w.Some? && RoomFor(c, id, ans.grow2)) ==>
        PageComes(c.slabs, id, Expected(c.slabs, id, mal).grant3) == PageComes(c.slabs, id, ans.grant3)
  {
    hide Inv, HasChunk, ExpiredIn, PageComes, Granted, SlabsAlloc, Repair, SlabAlloc.AnsweredBy, Expected, ListRoom,
      Refused, RoomFor;
    var c3 := SlabsAlloc(e, ntotal, id, ans.grant2).0;
    MidFails(c, e, id, gone, ntotal, ans.grant2);
    SecondSearch(c, c3, id, gone, now, ans.grow2);
    RepairListRoom(c3, id, now, ans.grow2);
    ExpectedPages(c.slabs, id, mal);
    var w := ExpiredIn(c.items, e.queues[id], now);
    if !(w.Some? && RoomFor(c, id, ans.grow2)) {
      SameRefused(c.slabs, e.slabs, id);
      if !Refused(c.slabs, id) {
        FailListRoom(e, ntotal, id, mal.second, ans.grant2);
      }
      MidAnswered(c, Repair(c3, id, now, ans.grow2), id, gone + Only(w), mal.third, ans.grant3);
    }
  }

  ghost predicate PlacesOk(s: Slabs, id: nat, mal: Mallocs)
    requires id < |s.classes|
  {
    && SlabAlloc.PlaceOk(s, id, mal.first.base)
    && SlabAlloc.PlaceOk(s, id, mal.second.base)
    && SlabAlloc.PlaceOk(s, id, mal.third.base)
  }

  lemma SamePlacesOk(s: Slabs, s': Slabs, id: nat, mal: Mallocs)
    requires id < |s.classes| && SamePlaces(s, s') && PlacesOk(s, id, mal)
    ensures PlacesOk(s', id, mal) && ClassSizes(s') == ClassSizes(s)
  {
    assert ClassSizes(s') == ClassSizes(s);
    forall i | 0 <= i < |s.classes| ensures PageLength(s'.classes[i]) == PageLength(s.classes[i]) {
    }
    hide PageLength;
  }
}
