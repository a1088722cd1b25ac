/** The pages of a room's history: what one request returns, and what a client that keeps asking
    for older messages ends up with while others keep writing. */
module Paging {
  import opened Common
  import opened MessageStore
  import MemoryStore

  const PAGE_SIZE := 50
  const CONTEXT_SIZE := 30
  const MICROSECOND := 1000

  /** The last `size` messages before the cursor, and whether there are more before them. One
      more than a page is asked for; if it comes, it is cut off again. */
  function Serve(log: seq<Message>, size: nat, before: Option<int>): (seq<Message>, bool) {
    var found := PageOf(log, size + 1, before);
    if |found| > size then (found[1..], true) else (found, false)
  }

  function ServePage(log: seq<Message>, before: Option<int>): (seq<Message>, bool) {
    Serve(log, PAGE_SIZE, before)
  }

  /** The window that ends at a message. */
  function ServeContext(log: seq<Message>, id: string): Result<(seq<Message>, bool), StoreError> {
    var i := Find(log, id);
    if i == |log| then Err(NotFound)
    else Ok(Serve(log, CONTEXT_SIZE, Some(log[i].createdAt + MICROSECOND)))
  }

  /** Creation times grow strictly along the log. */
  ghost predicate Increasing(log: seq<Message>) {
    forall i, j | 0 <= i < j < |log| :: log[i].createdAt < log[j].createdAt
  }

  ghost predicate NeverFalling(log: seq<Message>) {
    forall i, j | 0 <= i < j < |log| :: log[i].createdAt <= log[j].createdAt
  }

  ghost predicate UniqueIds(log: seq<Message>) {
    forall i, j | 0 <= i < j < |log| :: log[i].id != log[j].id
  }

  /** The cursor's place is behind the last message that is before it. */
  lemma {:induction false} EndBeforeIs(log: seq<Message>, t: int)
    ensures var end := EndBefore(log, Some(t));
            && (end > 0 ==> log[end - 1].createdAt < t)
            && forall i | end <= i < |log| :: log[i].createdAt >= t
  {
    if log != [] && !(log[|log| - 1].createdAt < t) {
      EndBeforeIs(log[..|log| - 1], t);
    }
  }

  /** One page: a slice that ends at the cursor, and `more` exactly if something is left before it. */
  lemma ServeIsASlice(log: seq<Message>, size: nat, before: Option<int>)
    requires 0 < size < 500
    ensures var (page, more) := Serve(log, size, before);
            var end := EndBefore(log, before);
            var start := if end > size then end - size else 0;
            page == log[start..end] && (more <==> start > 0)
  {
  }

  /** Every limit gives a slice that ends at the cursor, as long as asked for, or a hundred if that is not
      between one and five hundred. */
  lemma AnyLimit(log: seq<Message>, limit: int, before: Option<int>)
    ensures var page, end := PageOf(log, limit, before), EndBefore(log, before);
            && |page| <= end && page == log[end - |page|..end]
            && (1 <= limit <= 500 ==> |page| == if limit < end then limit else end)
            && (limit < 1 || limit > 500 ==> |page| == if 100 < end then 100 else end)
  {
    hide EndBefore;
  }

  predicate IsBefore(m: Message, before: Option<int>) {
    before.None? || m.createdAt < before.value
  }

  /** The room holds a message that is not on the page and stands before one that the cursor admits,
      or is that one itself. */
  ghost predicate SomethingLeft(log: seq<Message>, before: Option<int>, page: seq<Message>) {
    exists i, j :: 0 <= i <= j < |log| && IsBefore(log[j], before) && log[i] !in page
  }

  ghost predicate SomethingOlder(log: seq<Message>, before: Option<int>, page: seq<Message>) {
    exists i :: 0 <= i < |log| && IsBefore(log[i], before) && log[i] !in page
  }

  lemma EndIsBehindTheLast(log: seq<Message>, before: Option<int>)
    ensures var end := EndBefore(log, before);
            && (end > 0 ==> IsBefore(log[end - 1], before))
            && forall i | end <= i < |log| :: !IsBefore(log[i], before)
  {
    if before.Some? { EndBeforeIs(log, before.value); }
  }

  /** `hasMore` on any log: true exactly when something is left in this sense, and always when an
      older message is not on the page. */
  lemma HasMoreIsExact(log: seq<Message>, before: Option<int>)
    requires UniqueIds(log)
    ensures var (page, more) := ServePage(log, before);
            && (more <==> SomethingLeft(log, before, page))
            && (SomethingOlder(log, before, page) ==> more)
            && (forall m | m in page :: m in log)
  {
    ServeIsASlice(log, PAGE_SIZE, before);
    EndIsBehindTheLast(log, before);
    var end := EndBefore(log, before);
    hide EndBefore, ServePage, IsBefore, SomethingLeft;
    SliceLeaves(log, before, if end > PAGE_SIZE then end - PAGE_SIZE else 0, end);
  }

  lemma SliceLeaves(log: seq<Message>, before: Option<int>, start: nat, end: nat)
    requires UniqueIds(log) && start <= end <= |log| && (start > 0 ==> start < end)
    requires (end > 0 ==> IsBefore(log[end - 1], before)) && forall i | end <= i < |log| :: !IsBefore(log[i], before)
    ensures start > 0 <==> SomethingLeft(log, before, log[start..end])
    ensures SomethingOlder(log, before, log[start..end]) ==> start > 0
  {
    hide IsBefore;
    var page := log[start..end];
    forall i | 0 <= i < end && log[i] !in page ensures i < start { InSlice(log, start, end, i); }
    if start > 0 {
      assert log[0] !in page;
      assert IsBefore(log[end - 1], before);
    }
  }

  lemma InSlice(log: seq<Message>, start: nat, end: nat, i: nat)
    requires start <= end <= |log| && i < end
    ensures start <= i ==> log[i] in log[start..end]
  {
    if start <= i { assert log[start..end][i - start] == log[i]; }
  }

  /** If times never fall, something left is something older, and the page holds only messages before
      the cursor. */
  lemma OlderIfNeverFalling(log: seq<Message>, before: Option<int>)
    requires UniqueIds(log) && NeverFalling(log)
    ensures var (page, more) := ServePage(log, before);
            && (more <==> SomethingOlder(log, before, page))
            && (forall m | m in page :: IsBefore(m, before))
  {
    HasMoreIsExact(log, before);
    LeftIsOlder(log, before, ServePage(log, before).0);
    PageIsBefore(log, before);
    hide ServePage, SomethingLeft, SomethingOlder, NeverFalling;
  }

  lemma LeftIsOlder(log: seq<Message>, before: Option<int>, page: seq<Message>)
    requires NeverFalling(log)
    ensures SomethingLeft(log, before, page) ==> SomethingOlder(log, before, page)
  {
    if i, j :| 0 <= i <= j < |log| && IsBefore(log[j], before) && log[i] !in page {
      assert IsBefore(log[i], before);
    }
  }

  lemma PageIsBefore(log: seq<Message>, before: Option<int>)
    requires NeverFalling(log)
    ensures forall m | m in ServePage(log, before).0 :: IsBefore(m, before)
  {
    ServeIsASlice(log, PAGE_SIZE, before);
    EndIsBehindTheLast(log, before);
    var end := EndBefore(log, before);
    hide EndBefore;
    assert forall i | 0 <= i < end :: IsBefore(log[i], before);
  }

  // ---- Asking for page after page ----

  /** Later, the log may have grown and its messages may have been edited. */
  ghost predicate Extends(earlier: seq<Message>, later: seq<Message>) {
    && |earlier| <= |later|
    && forall i | 0 <= i < |earlier| :: Place(later[i]) == Place(earlier[i])
  }

  function Place(m: Message): (string, int) {
    (m.id, m.createdAt)
  }

  /** The log as each fetch finds it. Nothing is said of the order of its times: they are read from
      the clock before the message is appended, so two appends may cross. */
  ghost predicate Growing(log: nat -> seq<Message>) {
    && (forall k :: UniqueIds(log(k)))
    && (forall j, k | j <= k :: Extends(log(j), log(k)))
  }

  /** Asking for what is before the message at `start` asks for what stands before it. */
  ghost predicate Boundary(log: seq<Message>, start: nat) {
    && 0 < start < |log| && log[start - 1].createdAt < log[start].createdAt
    && forall i | start <= i < |log| :: log[i].createdAt >= log[start].createdAt
  }

  lemma EndAtPlace(log: seq<Message>, start: nat)
    requires 0 < start < |log|
    ensures EndBefore(log, Some(log[start].createdAt)) == start <==> Boundary(log, start)
  {
    EndBeforeIs(log, log[start].createdAt);
    hide EndBefore;
  }

  /** On any log, the next page ends where this one begins exactly if the message before this page is
      strictly older than its first and none after it is. If times never fall, all messages of the
      time of its first that stand before it are otherwise lost. */
  lemma NextPageFits(log: seq<Message>, before: Option<int>)
    requires ServePage(log, before).1
    ensures var start := EndBefore(log, before) - PAGE_SIZE;
            && 0 < start && ServePage(log, before).0 == log[start..start + PAGE_SIZE]
            && var next := EndBefore(log, Some(log[start].createdAt));
            && (next == start <==> && log[start - 1].createdAt < log[start].createdAt
                                   && forall i | start <= i < |log| :: log[i].createdAt >= log[start].createdAt)
            && (NeverFalling(log) ==> 
                  forall i | 0 <= i < start && log[i].createdAt == log[start].createdAt :: next <= i)
  {
    ServeIsASlice(log, PAGE_SIZE, before);
    var start := EndBefore(log, before) - PAGE_SIZE;
    EndAtPlace(log, start);
    EndBeforeIs(log, log[start].createdAt);
    hide EndBefore;
  }

  /** The pages of at most `n` fetches after the k-th, each asking for what is before the first message
      of the last page, put together. */
  ghost function Pages(log: nat -> seq<Message>, k: nat, before: Option<int>, n: nat): seq<Message>
    decreases n
  {
    var (page, more) := ServePage(log(k), before);
    if more && n > 0 && page != [] then Pages(log, k + 1, Some(page[0].createdAt), n - 1) + page else page
  }

  /** Whether there was no more after them. */
  ghost predicate Finished(log: nat -> seq<Message>, k: nat, before: Option<int>, n: nat)
    decreases n
  {
    var (page, more) := ServePage(log(k), before);
    more ==> n > 0 && page != [] && Finished(log, k + 1, Some(page[0].createdAt), n - 1)
  }

  lemma AfterOneFetch(log: nat -> seq<Message>, k: nat, before: Option<int>, n: nat)
    ensures var (page, more) := ServePage(log(k), before);
            && (more ==> page != [])
            && (!more || n == 0 ==> Pages(log, k, before, n) == page && (Finished(log, k, before, n) <==> !more))
            && (more && n > 0 ==>
                  var cursor := Some(page[0].createdAt);
                  && Pages(log, k, before, n) == Pages(log, k + 1, cursor, n - 1) + page
                  && Finished(log, k, before, n) == Finished(log, k + 1, cursor, n - 1))
  {
    ServeIsASlice(log(k), PAGE_SIZE, before);
    hide ServePage, EndBefore;
  }

  /** One fetch more asks for what is before all that came so far. */
  lemma {:induction false} PagesAndOneMore(log: nat -> seq<Message>, k: nat, before: Option<int>, n: nat)
    ensures var got, last := Pages(log, k, before, n), Pages(log, k, before, n + 1);
            if Finished(log, k, before, n) then Finished(log, k, before, n + 1) && last == got
            else && got != []
                 && var (page, more) := ServePage(log(k + n + 1), Some(got[0].createdAt));
                 last == page + got && (Finished(log, k, before, n + 1) <==> !more)
    decreases n
  {
    hide ServePage, Pages, Finished;
    AfterOneFetch(log, k, before, n);
    AfterOneFetch(log, k, before, n + 1);
    var (page, more) := ServePage(log(k), before);
    if more {
      var cursor := Some(page[0].createdAt);
      if n == 0 {
        AfterOneFetch(log, k + 1, cursor, 0);
      } else {
        PagesAndOneMore(log, k + 1, cursor, n - 1);
        var got := Pages(log, k + 1, cursor, n - 1);
        if !Finished(log, k + 1, cursor, n - 1) {
          var older := ServePage(log(k + n + 1), Some(got[0].createdAt)).0;
          assert (older + got) + page == older + (got + page);
        }
      }
    }
  }

  ghost predicate SamePlaces(got: seq<Message>, log: seq<Message>) {
    |got| == |log| && forall i | 0 <= i < |got| :: Place(got[i]) == Place(log[i])
  }

  /** Paging from no cursor ends, with every message of the room as of the first fetch exactly once
      and in order. */
  ghost predicate PagesAreTheRoom(log: nat -> seq<Message>) {
    exists n: nat :: Finished(log, 0, None, n) && SamePlaces(Pages(log, 0, None, n), log(0))
  }

  /** Where the page of fetch `k` begins if all before it fitted. */
  function PlaceOfFetch(log: nat -> seq<Message>, k: nat): (place: int)
    ensures place <= |log(0)|
  {
    |log(0)| - PAGE_SIZE * (k + 1)
  }

  ghost predicate FitsAt(log: nat -> seq<Message>, k: nat) {
    PlaceOfFetch(log, k) > 0 ==> Boundary(log(k + 1), PlaceOfFetch(log, k))
  }

  /** Each fetch finds its cursor at a boundary of the log. */
  ghost predicate FitsAtEachFetch(log: nat -> seq<Message>) {
    forall k: nat :: FitsAt(log, k)
  }

  ghost predicate FitsFrom(log: nat -> seq<Message>, k: nat, end: nat, n: nat)
    decreases n
  {
    end <= PAGE_SIZE || (n > 0 && Boundary(log(k + 1), end - PAGE_SIZE) && FitsFrom(log, k + 1, end - PAGE_SIZE, n - 1))
  }

  lemma PagesEndAtCursor(log: nat -> seq<Message>, k: nat, before: Option<int>, n: nat)
    ensures var end, got := EndBefore(log(k), before), Pages(log, k, before, n);
            if end == 0 then got == [] else got != [] && got[|got| - 1] == log(k)[end - 1]
  {
    ServeIsASlice(log(k), PAGE_SIZE, before);
    var (page, more) := ServePage(log(k), before);
    var got := Pages(log, k, before, n);
    assert got == if more && n > 0 && page != []
                  then Pages(log, k + 1, Some(page[0].createdAt), n - 1) + page else page;
    hide EndBefore, ServePage, Pages;
    assert page != [] ==> got[|got| - 1] == page[|page| - 1];
  }

  /** If the pages are the room, the next one ends where this one begins. */
  lemma SameOnlyIfFit(log: nat -> seq<Message>, k: nat, before: Option<int>, n: nat, page: seq<Message>, start: nat)
    requires Growing(log) && 0 < start && start + |page| <= |log(0)|
    ensures SamePlaces(Pages(log, k, before, n) + page, log(0)[..start + |page|]) ==> EndBefore(log(k), before) == start
  {
    var end, got := EndBefore(log(k), before), Pages(log, k, before, n);
    PagesEndAtCursor(log, k, before, n);
    assert Extends(log(0), log(k)) && UniqueIds(log(k));
    hide Pages, EndBefore;
    if SamePlaces(got + page, log(0)[..start + |page|]) {
      var all := got + page;
      assert |got| == start && all[start - 1] == got[start - 1];
      assert Place(all[start - 1]) == Place(log(0)[start - 1]);
      assert Place(log(k)[end - 1]) == Place(log(k)[start - 1]);
    }
  }

  lemma SameWithPage(log: nat -> seq<Message>, k: nat, got: seq<Message>, start: nat, end: nat)
    requires Growing(log) && start <= end <= |log(0)| <= |log(k)|
    ensures SamePlaces(got + log(k)[start..end], log(0)[..end]) <==> SamePlaces(got, log(0)[..start])
  {
    assert Extends(log(0), log(k));
    var all := got + log(k)[start..end];
    if SamePlaces(all, log(0)[..end]) {
      assert forall i | 0 <= i < |got| :: all[i] == got[i];
    }
  }

  ghost predicate AreTheFirst(log: nat -> seq<Message>, k: nat, before: Option<int>, n: nat, end: nat)
    requires end <= |log(0)|
  {
    Finished(log, k, before, n) && SamePlaces(Pages(log, k, before, n), log(0)[..end])
  }

  /** The last page there is. */
  lemma LastPageIsFirst(log: nat -> seq<Message>, k: nat, before: Option<int>, n: nat)
    requires Growing(log) && EndBefore(log(k), before) <= |log(0)| && EndBefore(log(k), before) <= PAGE_SIZE
    ensures AreTheFirst(log, k, before, n, EndBefore(log(k), before))
  {
    ServeIsASlice(log(k), PAGE_SIZE, before);
    assert Extends(log(0), log(k));
    hide EndBefore, ServePage;
  }

  lemma PageJoins(log: nat -> seq<Message>, k: nat, cursor: Option<int>, n: nat, start: nat, end: nat)
    requires Growing(log) && 0 < start <= end <= |log(0)| <= |log(k)|
    ensures SamePlaces(Pages(log, k + 1, cursor, n) + log(k)[start..end], log(0)[..end])
       <==> EndBefore(log(k + 1), cursor) == start && SamePlaces(Pages(log, k + 1, cursor, n), log(0)[..start])
  {
    hide EndBefore, Pages, SamePlaces, Growing;
    SameOnlyIfFit(log, k + 1, cursor, n, log(k)[start..end], start);
    SameWithPage(log, k, Pages(log, k + 1, cursor, n), start, end);
  }

  lemma PagesUnfold(log: nat -> seq<Message>, k: nat, before: Option<int>, n: nat, start: nat, end: nat)
    requires end == EndBefore(log(k), before) && PAGE_SIZE < end && start == end - PAGE_SIZE
    ensures n == 0 ==> !Finished(log, k, before, n)
    ensures var cursor := Some(log(k)[start].createdAt);
            n > 0 ==> && Pages(log, k, before, n) == Pages(log, k + 1, cursor, n - 1) + log(k)[start..end]
                      && Finished(log, k, before, n) == Finished(log, k + 1, cursor, n - 1)
  {
    ServeIsASlice(log(k), PAGE_SIZE, before);
    hide ServePage, EndBefore;
    assert log(k)[start..end][0] == log(k)[start];
  }

  /** One page that is not the last. */
  lemma OneMoreFits(log: nat -> seq<Message>, k: nat, before: Option<int>, n: nat, start: nat, end: nat)
    requires Growing(log) && end == EndBefore(log(k), before) && PAGE_SIZE < end <= |log(0)|
    requires start == end - PAGE_SIZE && n > 0
    ensures var cursor := Some(log(k)[start].createdAt);
            AreTheFirst(log, k, before, n, end)
            <==> EndBefore(log(k + 1), cursor) == start && AreTheFirst(log, k + 1, cursor, n - 1, start)
  {
    assert |log(0)| <= |log(k)| by { assert Extends(log(0), log(k)); }
    hide EndBefore, Pages, Finished, SamePlaces, Growing;
    PagesUnfold(log, k, before, n, start, end);
    PageJoins(log, k, Some(log(k)[start].createdAt), n - 1, start, end);
  }

  lemma {:induction false} PagesFitFrom(log: nat -> seq<Message>, k: nat, before: Option<int>, n: nat)
    requires Growing(log) && EndBefore(log(k), before) <= |log(0)|
    ensures var end := EndBefore(log(k), before);
            AreTheFirst(log, k, before, n, end) <==> FitsFrom(log, k, end, n)
    decreases n
  {
    var end := EndBefore(log(k), before);
    hide EndBefore, Boundary, Finished, Pages, SamePlaces;
    if end <= PAGE_SIZE {
      LastPageIsFirst(log, k, before, n);
    } else if n == 0 {
      PagesUnfold(log, k, before, n, end - PAGE_SIZE, end);
    } else {
      hide AreTheFirst;
      var start := end - PAGE_SIZE;
      assert Extends(log(k), log(k + 1));
      var cursor := Some(log(k)[start].createdAt);
      assert Place(log(k + 1)[start]) == Place(log(k)[start]);
      hide Growing, Extends;
      OneMoreFits(log, k, before, n, start, end);
      EndAtPlace(log(k + 1), start);
      if EndBefore(log(k + 1), cursor) == start { PagesFitFrom(log, k + 1, cursor, n - 1); }
    }
  }

  lemma {:induction false} FitsFromGives(log: nat -> seq<Message>, k: nat, end: nat, n: nat, j: nat)
    requires FitsFrom(log, k, end, n) && end == PlaceOfFetch(log, k) + PAGE_SIZE && j >= k
    ensures FitsAt(log, j)
    decreases n
  {
    hide Boundary;
    if end > PAGE_SIZE && j > k { FitsFromGives(log, k + 1, end - PAGE_SIZE, n - 1, j); }
  }

  lemma {:induction false} FitsFromNeeds(log: nat -> seq<Message>, k: nat, end: nat, n: nat)
    requires FitsAtEachFetch(log) && end == PlaceOfFetch(log, k) + PAGE_SIZE && end <= PAGE_SIZE * (n + 1)
    ensures FitsFrom(log, k, end, n)
    decreases n
  {
    hide Boundary;
    if end > PAGE_SIZE {
      assert FitsAt(log, k);
      FitsFromNeeds(log, k + 1, end - PAGE_SIZE, n - 1);
    }
  }

  /** On any growing log: the pages are the room exactly if each fetch finds its cursor at a boundary,
      that is, the message before the last page is strictly older than that page's first, and none
      behind it is, as the log is then. */
  lemma PagingIsCompleteExactlyIfItFits(log: nat -> seq<Message>)
    requires Growing(log)
    ensures PagesAreTheRoom(log) <==> FitsAtEachFetch(log)
  {
    var size := |log(0)|;
    assert log(0)[..size] == log(0) && EndBefore(log(0), None) == size;
    hide EndBefore, Growing, Finished, Pages, SamePlaces, FitsFrom, FitsAt;
    if PagesAreTheRoom(log) {
      var n: nat :| Finished(log, 0, None, n) && SamePlaces(Pages(log, 0, None, n), log(0));
      PagesFitFrom(log, 0, None, n);
      forall j: nat ensures FitsAt(log, j) { FitsFromGives(log, 0, size, n, j); }
    }
    if FitsAtEachFetch(log) {
      PagesFitFrom(log, 0, None, size);
      FitsFromNeeds(log, 0, size, size);
    }
  }

  /** So it is if creation times grow strictly. */
  lemma PagingIsComplete(log: nat -> seq<Message>)
    requires Growing(log) && forall k :: Increasing(log(k))
    ensures FitsAtEachFetch(log) && PagesAreTheRoom(log)
  {
    PagingIsCompleteExactlyIfItFits(log);
    forall k: nat ensures FitsAt(log, k) {
      assert Extends(log(0), log(k + 1)) && Increasing(log(k + 1));
    }
    hide PagesAreTheRoom;
  }

  /** Fifty-one messages, the second of which is as old as any of them: the first is on no page. That
      is so if all times are equal, and if the first two appends crossed. */
  lemma OneInFiftyOneIsLost(log: seq<Message>)
    requires |log| == PAGE_SIZE + 1 && forall i | 0 <= i < |log| :: log[i].createdAt >= log[1].createdAt
    ensures var (page, more) := ServePage(log, None);
            more && page == log[1..] && ServePage(log, Some(page[0].createdAt)) == ([], false)
  {
    ServeIsASlice(log, PAGE_SIZE, None);
    EndBeforeIs(log, log[1].createdAt);
    ServeIsASlice(log, PAGE_SIZE, Some(log[1].createdAt));
    hide EndBefore, Serve;
  }

  // ---- The context of one message ----

  /** On any log, the context page ends at its target exactly when no message behind it was created
      before the end of the microsecond that follows it. With whole microseconds that grow strictly
      it does. */
  lemma ContextEndsAtTarget(log: seq<Message>, id: string)
    requires UniqueIds(log) && Find(log, id) < |log|
    ensures var i := Find(log, id);
            var (page, more) := ServeContext(log, id).value;
            && page != []
            && (page[|page| - 1] == log[i]
                <==> forall j | i < j < |log| :: log[j].createdAt >= log[i].createdAt + MICROSECOND)
            && (Increasing(log) && InWholeMicroseconds(log) ==> page[|page| - 1] == log[i])
  {
    hide Serve, EndBefore, UniqueIds, Find, Increasing, InWholeMicroseconds;
    ContextPageEnds(log, Find(log, id));
    if Increasing(log) && InWholeMicroseconds(log) { WholeMicroseconds(log, Find(log, id)); }
  }

  ghost predicate InWholeMicroseconds(log: seq<Message>) {
    forall i | 0 <= i < |log| :: log[i].createdAt % MICROSECOND == 0
  }

  lemma ContextPageEnds(log: seq<Message>, i: nat)
    requires UniqueIds(log) && i < |log|
    ensures var page := Serve(log, CONTEXT_SIZE, Some(log[i].createdAt + MICROSECOND)).0;
            && page != []
            && (page[|page| - 1] == log[i]
                <==> forall j | i < j < |log| :: log[j].createdAt >= log[i].createdAt + MICROSECOND)
  {
    hide Serve, EndBefore, UniqueIds;
    var before := log[i].createdAt + MICROSECOND;
    var end := EndBefore(log, Some(before));
    EndBeforeIs(log, before);
    ServeIsASlice(log, CONTEXT_SIZE, Some(before));
    assert i < end;
    assert end - 1 != i ==> log[end - 1] != log[i] by { OthersDiffer(log, i, end - 1); }
  }

  lemma OthersDiffer(log: seq<Message>, i: nat, j: nat)
    requires UniqueIds(log) && i <= j < |log|
    ensures i != j ==> log[i] != log[j]
  {
  }

  lemma WholeMicroseconds(log: seq<Message>, i: nat)
    requires Increasing(log) && InWholeMicroseconds(log) && i < |log|
    ensures forall j | i < j < |log| :: log[j].createdAt >= log[i].createdAt + MICROSECOND
  {
    forall j | i < j < |log| ensures log[j].createdAt >= log[i].createdAt + MICROSECOND {
      assert log[i].createdAt < log[j].createdAt;
      NextMultiple(log[i].createdAt, log[j].createdAt);
    }
  }

  lemma NextMultiple(a: int, b: int)
    requires a < b && a % MICROSECOND == 0 && b % MICROSECOND == 0
    ensures b >= a + MICROSECOND
  {
  }

  // ---- The two handlers ----

  /** `page` shows these messages as the store decorates them. */
  ghost predicate Shows(db: Db, page: seq<Copy>, messages: seq<Message>) {
    |page| == |messages| && forall i | 0 <= i < |page| :: Decorates(db, messages[i], page[i])
  }

  method HandleListEncryptedMessages(store: MemoryStore.MemoryStore, roomId: string, before: Option<int>)
      returns (page: seq<Copy>, hasMore: bool)
    ensures var (messages, more) := ServePage(MessagesOf(store.View(), roomId), before);
            hasMore == more && Shows(store.View(), page, messages)
  {
    hide Decorates;
    page := store.ListMessages(roomId, PAGE_SIZE + 1, before);
    hasMore := |page| > PAGE_SIZE;
    if hasMore { page := page[1..]; }
  }

  method HandleMessageContext(store: MemoryStore.MemoryStore, roomId: string, id: string)
      returns (r: Result<(seq<Copy>, bool), StoreError>)
    ensures match ServeContext(MessagesOf(store.View(), roomId), id)
            case Ok((messages, more)) => r.Ok? && r.value.1 == more && Shows(store.View(), r.value.0, messages)
            case Err(e) => r == Err(e)
  {
    hide Decorates;
    var createdAt := store.GetMessageCreatedAt(roomId, id);
    if createdAt.Err? { return Err(createdAt.error); }
    var page := store.ListMessages(roomId, CONTEXT_SIZE + 1, Some(createdAt.value + MICROSECOND));
    var hasMore := |page| > CONTEXT_SIZE;
    if hasMore { page := page[1..]; }
    return Ok((page, hasMore));
  }
}
