/** The client's side of paging: the cursor it computes, the merge of a fetched page into what it
    already holds, and the list it ends up with. */
module ClientPaging {
  import opened Common
  import opened Keyed
  import opened Ordering
  import opened MessageStore
  import opened Paging
  import opened ClientMerge

  function SetAll(entries: seq<Copy>, copies: seq<Copy>): seq<Copy>
    decreases |copies|
  {
    if copies == [] then entries
    else SetEntry(SetAll(entries, copies[..|copies| - 1]), Id, copies[|copies| - 1])
  }

  /** The fetched page first, then what was there before, which wins. */
  function MergePages(prev: seq<Copy>, incoming: seq<Copy>): seq<Copy> {
    Sort(SetAll(SetAll([], incoming), prev), OlderOrSame)
  }

  method MergeMessagePages(prev: seq<Copy>, incoming: seq<Copy>) returns (merged: seq<Copy>)
    ensures merged == MergePages(prev, incoming)
  {
    var byId: seq<Copy> := [];
    for i := 0 to |incoming|
      invariant byId == SetAll([], incoming[..i])
    {
      assert incoming[..i + 1][..i] == incoming[..i];
      byId := SetEntry(byId, Id, incoming[i]);
    }
    assert incoming[..|incoming|] == incoming;
    for i := 0 to |prev|
      invariant byId == SetAll(SetAll([], incoming), prev[..i])
    {
      assert prev[..i + 1][..i] == prev[..i];
      byId := SetEntry(byId, Id, prev[i]);
    }
    assert prev[..|prev|] == prev;
    merged := Sort(byId, OlderOrSame);
  }

  ghost predicate Disjoint(a: seq<Copy>, b: seq<Copy>) {
    forall i, j | 0 <= i < |a| && 0 <= j < |b| :: Id(a[i]) != Id(b[j])
  }

  lemma {:induction false} SetAllAppends(entries: seq<Copy>, copies: seq<Copy>)
    requires DistinctKeys(copies, Id) && Disjoint(entries, copies)
    ensures SetAll(entries, copies) == entries + copies
    decreases |copies|
  {
    if copies == [] {
      assert entries + copies == entries;
    } else {
      var n := |copies| - 1;
      SetAllAppends(entries, copies[..n]);
      var so := entries + copies[..n];
      assert Slot(so, Id, Id(copies[n])) == |so|;
      hide Slot, DistinctKeys, Disjoint;
      assert copies == copies[..n] + [copies[n]];
    }
  }

  /** A page of strictly other, older messages is simply put in front. */
  lemma OlderPageGoesInFront(prev: seq<Copy>, incoming: seq<Copy>)
    requires DistinctKeys(incoming, Id) && DistinctKeys(prev, Id) && Disjoint(incoming, prev)
    requires SortedBy(incoming + prev, OlderOrSame)
    ensures MergePages(prev, incoming) == incoming + prev
  {
    assert Disjoint([], incoming);
    SetAllAppends([], incoming);
    assert [] + incoming == incoming;
    SetAllAppends(incoming, prev);
    SortOfSorted(incoming + prev, OlderOrSame);
  }

  /** Of two copies of an id the one set last wins, and no id is lost or doubled. */
  lemma {:induction false} SetAllHolds(entries: seq<Copy>, copies: seq<Copy>)
    requires DistinctKeys(entries, Id)
    ensures var after := SetAll(entries, copies);
            && DistinctKeys(after, Id)
            && (forall e | e in after :: e in copies || (e in entries && !Present(Id(e), copies)))
            && (forall c | c in entries || c in copies :: Present(Id(c), after))
    decreases |copies|
  {
    if copies != [] {
      var n := |copies| - 1;
      SetAllHolds(entries, copies[..n]);
      var before, after := SetAll(entries, copies[..n]), SetAll(entries, copies);
      SetEntryHolds(before, Id, copies[n]);
      assert copies == copies[..n] + [copies[n]] && after == SetEntry(before, Id, copies[n]);
      hide SetAll, SetEntry, DistinctKeys;
    }
  }

  /** In a merge of pages every id is there once, and a copy already held wins over a fetched one. */
  lemma MergePagesHolds(prev: seq<Copy>, incoming: seq<Copy>)
    ensures var merged := MergePages(prev, incoming);
            && DistinctKeys(merged, Id) && SortedBy(merged, OlderOrSame)
            && (forall e | e in merged :: e in prev || (e in incoming && !Present(Id(e), prev)))
            && (forall c | c in prev || c in incoming :: Present(Id(c), merged))
  {
    var first := SetAll([], incoming);
    var all := SetAll(first, prev);
    SetAllHolds([], incoming);
    SetAllHolds(first, prev);
    var merged := MergePages(prev, incoming);
    SortKeepsKeys(all, Id, OlderOrSame);
    SortSorts(all, OlderOrSame);
    hide SetAll, Sort, DistinctKeys;
    forall c | c in prev || c in incoming ensures Present(Id(c), merged) {
      assert Present(Id(c), all) by {
        if c in incoming && c !in prev {
          var f :| f in first && Id(f) == Id(c);
          assert Present(Id(f), all);
        }
      }
      var e :| e in all && Id(e) == Id(c);
      assert e in merged;
    }
  }

  // ---- The cursor ----

  function OldestAt(paged: seq<Copy>): Option<int> {
    if paged == [] then None
    else
      var n := |paged| - 1;
      var before := OldestAt(paged[..n]);
      var t := paged[n].message.createdAt;
      if before.None? || Millis(t) < Millis(before.value) then Some(t) else before
  }

  method OldestPagedMessageAt(paged: seq<Copy>) returns (oldest: Option<int>)
    ensures oldest == OldestAt(paged)
  {
    oldest := None;
    for i := 0 to |paged|
      invariant oldest == OldestAt(paged[..i])
    {
      assert paged[..i + 1][..i] == paged[..i];
      var t := paged[i].message.createdAt;
      if oldest.None? || Millis(t) < Millis(oldest.value) { oldest := Some(t); }
    }
    assert paged[..|paged|] == paged;
  }

  /** Comparing by milliseconds finds the first message of a list if none is of an earlier one. */
  lemma {:induction false} OldestIsFirst(paged: seq<Copy>)
    requires paged != [] && forall c | c in paged :: OlderOrSame(paged[0], c)
    ensures OldestAt(paged) == Some(paged[0].message.createdAt)
  {
    var n := |paged| - 1;
    assert paged[n] in paged;
    if n > 0 {
      assert forall c | c in paged[..n] :: c in paged;
      OldestIsFirst(paged[..n]);
    }
  }

  // ---- Loading more until there is no more ----

  ghost predicate OneRoom(log: nat -> seq<Message>, decorate: (nat, Message) -> Copy) {
    Growing(log) && forall k, m :: decorate(k, m).message == m
  }

  function Decorated(k: nat, page: seq<Message>, decorate: (nat, Message) -> Copy): seq<Copy> {
    seq(|page|, i requires 0 <= i < |page| => decorate(k, page[i]))
  }

  /** What the newest page gave. */
  function FirstPage(log: nat -> seq<Message>, decorate: (nat, Message) -> Copy): seq<Copy> {
    Decorated(0, ServePage(log(0), None).0, decorate)
  }

  /** One `loadMoreMessages`: the older pages afterwards, and whether there is still more. */
  function LoadMore(log: seq<Message>, k: nat, decorate: (nat, Message) -> Copy,
                    older: seq<Copy>, newest: seq<Copy>): (seq<Copy>, bool)
  {
    var (page, more) := ServePage(log, OldestAt(older + newest));
    (MergePages(older, Decorated(k, page, decorate)), more)
  }

  /** The older pages after at most `n` of them, and whether there is still more. */
  function Loaded(log: nat -> seq<Message>, decorate: (nat, Message) -> Copy, n: nat): (seq<Copy>, bool) {
    if n == 0 then ([], ServePage(log(0), None).1)
    else
      var (older, more) := Loaded(log, decorate, n - 1);
      if more then LoadMore(log(n), n, decorate, older, FirstPage(log, decorate)) else (older, more)
  }

  /** All that the client holds then. */
  function Held(log: nat -> seq<Message>, decorate: (nat, Message) -> Copy, n: nat): seq<Copy> {
    Loaded(log, decorate, n).0 + FirstPage(log, decorate)
  }

  /** Where what it holds begins, if every fetch fitted. */
  function HeldFrom(log: nat -> seq<Message>, n: nat): (i: nat)
    ensures i <= |log(0)|
  {
    if PlaceOfFetch(log, n) > 0 then PlaceOfFetch(log, n) else 0
  }

  /** Some fetch found this message at this place. */
  ghost predicate Fetched(log: nat -> seq<Message>, place: nat, m: Message) {
    exists k :: place < |log(k)| && log(k)[place] == m
  }

  /** The copy is of a message of the first fetch from place `i` on. */
  ghost predicate OfPlace(log: nat -> seq<Message>, c: Copy, i: nat) {
    exists j :: i <= j < |log(0)| && Fetched(log, j, c.message)
  }

  ghost predicate HasPlace(log: nat -> seq<Message>, paged: seq<Copy>, j: nat) {
    exists c :: c in paged && Fetched(log, j, c.message)
  }

  /** The copies held are the messages of the first fetch from place `i` on, one for each, as some
      fetch found it; the first of them is in front if none of them is of an earlier millisecond. */
  ghost predicate Holds(log: nat -> seq<Message>, paged: seq<Copy>, i: nat) {
    && i <= |log(0)| && DistinctKeys(paged, Id)
    && (forall c | c in paged :: OfPlace(log, c, i))
    && (forall j: nat | i <= j < |log(0)| :: HasPlace(log, paged, j))
    && (i < |log(0)| && NoneBefore(log(0), i) ==> paged != [] && Fetched(log, i, paged[0].message))
  }

  ghost predicate NoneBefore(log: seq<Message>, i: nat) {
    i < |log| && forall j | i <= j < |log| :: Millis(log[i].createdAt) <= Millis(log[j].createdAt)
  }

  lemma FetchedIs(log: nat -> seq<Message>, place: nat, m: Message)
    requires Growing(log) && place < |log(0)| && Fetched(log, place, m)
    ensures Place(m) == Place(log(0)[place])
  {
    var k :| place < |log(k)| && log(k)[place] == m;
    assert Extends(log(0), log(k));
  }

  lemma BoundaryHasNoneBefore(log: nat -> seq<Message>, k: nat, i: nat)
    requires Growing(log) && i < |log(0)| && Boundary(log(k), i)
    ensures NoneBefore(log(0), i)
  {
    assert Extends(log(0), log(k));
    forall j | i <= j < |log(0)| ensures Millis(log(0)[i].createdAt) <= Millis(log(0)[j].createdAt) {
      assert Place(log(0)[j]) == Place(log(k)[j]) && Place(log(0)[i]) == Place(log(k)[i]);
    }
  }

  /** The cursor is the time of the first message held. */
  lemma CursorIsOfFirst(log: nat -> seq<Message>, paged: seq<Copy>, i: nat)
    requires Growing(log) && Holds(log, paged, i) && NoneBefore(log(0), i)
    ensures OldestAt(paged) == Some(log(0)[i].createdAt)
  {
    FetchedIs(log, i, paged[0].message);
    forall c | c in paged ensures OlderOrSame(paged[0], c) {
      assert OfPlace(log, c, i);
      var j :| i <= j < |log(0)| && Fetched(log, j, c.message);
      FetchedIs(log, j, c.message);
      hide Fetched, Millis;
    }
    OldestIsFirst(paged);
    hide OldestAt, Fetched, Millis;
  }

  /** The page that fits in front of what is held. */
  lemma PageOfPlaces(log: nat -> seq<Message>, decorate: (nat, Message) -> Copy, k: nat, start: nat, i: nat)
    requires OneRoom(log, decorate) && start <= i <= |log(0)| <= |log(k)|
    ensures var copies := Decorated(k, log(k)[start..i], decorate);
            && |copies| == i - start
            && forall j | 0 <= j < |copies| ::
                 Fetched(log, start + j, copies[j].message) && Place(copies[j].message) == Place(log(0)[start + j])
  {
    var copies := Decorated(k, log(k)[start..i], decorate);
    hide Growing;
    forall j | 0 <= j < |copies|
      ensures Fetched(log, start + j, copies[j].message) && Place(copies[j].message) == Place(log(0)[start + j])
    {
      assert log(k)[start + j] == copies[j].message;
      FetchedIs(log, start + j, copies[j].message);
    }
  }

  lemma SortedFirst(s: seq<Copy>)
    requires s != [] && forall c | c in s :: OlderOrSame(s[0], c)
    ensures Sort(s, OlderOrSame) != [] && Sort(s, OlderOrSame)[0] == s[0]
  {
    var rest := Sort(s[1..], OlderOrSame);
    SortKeeps(s[1..], OlderOrSame);
    if rest != [] { assert rest[0] in rest && rest[0] in s[1..]; }
  }

  lemma InFront(older: seq<Copy>, copies: seq<Copy>)
    requires DistinctKeys(older, Id) && DistinctKeys(copies, Id) && Disjoint(copies, older)
    ensures MergePages(older, copies) == Sort(copies + older, OlderOrSame)
    ensures DistinctKeys(copies + older, Id)
  {
    assert Disjoint([], copies);
    SetAllAppends([], copies);
    assert [] + copies == copies;
    SetAllAppends(copies, older);
    hide SetAll, Sort;
    TogetherDistinct(copies, older);
    hide DistinctKeys, Disjoint;
  }

  lemma TogetherDistinct(a: seq<Copy>, b: seq<Copy>)
    requires DistinctKeys(a, Id) && DistinctKeys(b, Id) && Disjoint(a, b)
    ensures DistinctKeys(a + b, Id)
  {
  }

  /** A page of other messages joins the older ones; its first stays in front if it is of no later
      millisecond than any. */
  lemma PageJoinsHeld(older: seq<Copy>, newest: seq<Copy>, copies: seq<Copy>)
    requires DistinctKeys(older + newest, Id) && DistinctKeys(copies, Id) && Disjoint(copies, older + newest)
    ensures var held := MergePages(older, copies) + newest;
            && DistinctKeys(held, Id)
            && (forall c :: c in held <==> c in copies || c in older + newest)
            && (copies != [] && (forall c | c in copies + older :: OlderOrSame(copies[0], c)) ==>
                  held != [] && held[0] == copies[0])
  {
    var all := older + newest;
    assert forall j | 0 <= j < |older| :: older[j] == all[j];
    assert forall j | 0 <= j < |newest| :: newest[j] == all[|older| + j];
    InFront(older, copies);
    hide MergePages, OlderOrSame;
    var next := Sort(copies + older, OlderOrSame);
    SortKeepsKeys(copies + older, Id, OlderOrSame);
    if copies != [] && forall c | c in copies + older :: OlderOrSame(copies[0], c) {
      SortedFirst(copies + older);
    }
    hide Sort;
    forall i, j | 0 <= i < |next| && 0 <= j < |newest| ensures Id(next[i]) != Id(newest[j]) {
      assert next[i] in next && next[i] in copies + older;
    }
  }

  lemma OthersById(log: nat -> seq<Message>, decorate: (nat, Message) -> Copy, k: nat, start: nat, i: nat,
                   paged: seq<Copy>)
    requires OneRoom(log, decorate) && start <= i <= |log(0)| <= |log(k)| && Holds(log, paged, i)
    ensures DistinctKeys(Decorated(k, log(k)[start..i], decorate), Id)
    ensures Disjoint(Decorated(k, log(k)[start..i], decorate), paged)
  {
    var copies := Decorated(k, log(k)[start..i], decorate);
    PageOfPlaces(log, decorate, k, start, i);
    assert UniqueIds(log(0));
    hide Decorated;
    forall j, h | 0 <= j < |copies| && 0 <= h < |paged| ensures Id(copies[j]) != Id(paged[h]) {
      assert OfPlace(log, paged[h], i);
      var p :| i <= p < |log(0)| && Fetched(log, p, paged[h].message);
      FetchedIs(log, p, paged[h].message);
      hide Fetched, Growing;
    }
    hide Fetched, Growing, Holds;
  }

  lemma PlacesJoin(log: nat -> seq<Message>, paged: seq<Copy>, copies: seq<Copy>, held: seq<Copy>, start: nat, i: nat)
    requires start + |copies| == i <= |log(0)| && Holds(log, paged, i)
    requires forall j | 0 <= j < |copies| :: Fetched(log, start + j, copies[j].message)
    requires forall c :: c in held <==> c in copies || c in paged
    ensures forall c | c in held :: OfPlace(log, c, start)
    ensures forall j: nat | start <= j < |log(0)| :: HasPlace(log, held, j)
  {
    hide Fetched;
    forall c | c in held ensures OfPlace(log, c, start) {
      if c in copies {
        var j :| 0 <= j < |copies| && copies[j] == c;
        assert Fetched(log, start + j, c.message);
      } else {
        assert OfPlace(log, c, i);
      }
    }
    forall j: nat | start <= j < |log(0)| ensures HasPlace(log, held, j) {
      if j < i {
        assert Fetched(log, start + (j - start), copies[j - start].message) && copies[j - start] in held;
      } else {
        assert HasPlace(log, paged, j);
      }
    }
  }

  /** What is held after one more page that fitted. */
  lemma StillHolds(log: nat -> seq<Message>, decorate: (nat, Message) -> Copy, k: nat,
                   older: seq<Copy>, newest: seq<Copy>, start: nat, i: nat)
    requires OneRoom(log, decorate) && start < i <= |log(0)| <= |log(k)| && Holds(log, older + newest, i)
    ensures Holds(log, MergePages(older, Decorated(k, log(k)[start..i], decorate)) + newest, start)
  {
    var copies := Decorated(k, log(k)[start..i], decorate);
    OthersById(log, decorate, k, start, i, older + newest);
    PageOfPlaces(log, decorate, k, start, i);
    PageJoinsHeld(older, newest, copies);
    var held := MergePages(older, copies) + newest;
    hide Decorated, MergePages, DistinctKeys, Disjoint;
    PlacesJoin(log, older + newest, copies, held, start, i);
    hide Holds;
    if NoneBefore(log(0), start) {
      assert Fetched(log, start + 0, copies[0].message) && Place(copies[0].message) == Place(log(0)[start + 0]);
      forall c | c in copies + older ensures OlderOrSame(copies[0], c) {
        assert c in held && OfPlace(log, c, start);
        var j :| start <= j < |log(0)| && Fetched(log, j, c.message);
        FetchedIs(log, j, c.message);
        hide Fetched, Millis, Growing;
      }
    }
    assert Holds(log, held, start) by { Assembled(log, held, start); }
  }

  lemma Assembled(log: nat -> seq<Message>, held: seq<Copy>, i: nat)
    requires i <= |log(0)| && DistinctKeys(held, Id)
    requires forall c | c in held :: OfPlace(log, c, i)
    requires forall j: nat | i <= j < |log(0)| :: HasPlace(log, held, j)
    requires i < |log(0)| && NoneBefore(log(0), i) ==> held != [] && Fetched(log, i, held[0].message)
    ensures Holds(log, held, i)
  {
  }

  /** A fetch that finds its cursor at a boundary reaches one page further back, or to the start of
      the room. */
  lemma OneMorePage(log: nat -> seq<Message>, decorate: (nat, Message) -> Copy, k: nat,
                    older: seq<Copy>, newest: seq<Copy>, i: nat)
    requires OneRoom(log, decorate) && Holds(log, older + newest, i) && i < |log(0)| && Boundary(log(k), i)
    ensures var (next, more) := LoadMore(log(k), k, decorate, older, newest);
            var start := if i > PAGE_SIZE then i - PAGE_SIZE else 0;
            && Holds(log, next + newest, start) && (more <==> start > 0)
            && next == MergePages(older, Decorated(k, log(k)[start..i], decorate))
  {
    BoundaryHasNoneBefore(log, k, i);
    CursorIsOfFirst(log, older + newest, i);
    assert Extends(log(0), log(k)) && Place(log(k)[i]) == Place(log(0)[i]);
    EndAtPlace(log(k), i);
    var t := log(0)[i].createdAt;
    ServeIsASlice(log(k), PAGE_SIZE, Some(t));
    hide Holds, ServePage, EndBefore, MergePages, Decorated, OldestAt, NoneBefore;
    StillHolds(log, decorate, k, older, newest, if i > PAGE_SIZE then i - PAGE_SIZE else 0, i);
    hide Growing;
  }

  lemma FirstPageIs(log: nat -> seq<Message>, decorate: (nat, Message) -> Copy)
    ensures FirstPage(log, decorate) == Decorated(0, log(0)[HeldFrom(log, 0)..|log(0)|], decorate)
    ensures ServePage(log(0), None).1 <==> HeldFrom(log, 0) > 0
  {
    ServeIsASlice(log(0), PAGE_SIZE, None);
    hide ServePage, Decorated;
  }

  lemma FirstPageHolds(log: nat -> seq<Message>, decorate: (nat, Message) -> Copy)
    requires OneRoom(log, decorate)
    ensures Holds(log, FirstPage(log, decorate), HeldFrom(log, 0))
  {
    var size, start := |log(0)|, HeldFrom(log, 0);
    FirstPageIs(log, decorate);
    var newest := FirstPage(log, decorate);
    hide FirstPage, HeldFrom;
    Assembled(log, [], size);
    OthersById(log, decorate, 0, start, size, []);
    PageOfPlaces(log, decorate, 0, start, size);
    hide Decorated, Growing;
    PlacesJoin(log, [], newest, newest, start, size);
    assert start < size ==> Fetched(log, start + 0, newest[0].message);
    Assembled(log, newest, start);
  }

  /** After any number of loads the client holds the room as of its first fetch from the place it has
      reached, and knows whether that is the start. */
  lemma {:induction false} ClientKeepsTheRoom(log: nat -> seq<Message>, decorate: (nat, Message) -> Copy, n: nat)
    requires OneRoom(log, decorate) && FitsAtEachFetch(log)
    ensures Holds(log, Held(log, decorate, n), HeldFrom(log, n))
    ensures Loaded(log, decorate, n).1 <==> HeldFrom(log, n) > 0
  {
    hide FirstPage, Holds, Growing, Boundary, LoadMore, ServePage;
    var newest := FirstPage(log, decorate);
    if n == 0 {
      FirstPageHolds(log, decorate);
      FirstPageIs(log, decorate);
      assert [] + newest == newest;
    } else {
      ClientKeepsTheRoom(log, decorate, n - 1);
      hide MergePages, Decorated;
      assert FitsAt(log, n - 1);
      LoadedOnce(log, decorate, n);
      var (older, more) := Loaded(log, decorate, n - 1);
      if more { OneMorePage(log, decorate, n, older, newest, HeldFrom(log, n - 1)); }
    }
  }

  /** If each fetch finds its cursor at a boundary, loading ends, and then the client holds each message
      of the room as of its first fetch exactly once, as some fetch found it, whatever was appended
      or edited in between. */
  lemma ClientEndsWithTheRoom(log: nat -> seq<Message>, decorate: (nat, Message) -> Copy, n: nat)
    requires OneRoom(log, decorate) && FitsAtEachFetch(log)
    ensures !Loaded(log, decorate, |log(0)|).1
    ensures !Loaded(log, decorate, n).1 ==> Holds(log, Held(log, decorate, n), 0)
  {
    ClientKeepsTheRoom(log, decorate, |log(0)|);
    ClientKeepsTheRoom(log, decorate, n);
    hide Loaded, Held, Holds, OneRoom, FitsAtEachFetch;
  }

  // ---- When creation times never fall ----

  ghost predicate InSome(log: nat -> seq<Message>, m: Message) {
    exists k :: m in log(k)
  }

  /** In order of time, each id once, all found by some fetch. */
  ghost predicate Tidy(log: nat -> seq<Message>, s: seq<Message>) {
    NeverFalling(s) && UniqueIds(s) && forall m | m in s :: InSome(log, m)
  }

  lemma SameIdSameTime(log: nat -> seq<Message>, a: Message, b: Message)
    requires Growing(log) && InSome(log, a) && InSome(log, b) && a.id == b.id
    ensures a.createdAt == b.createdAt
  {
    var j :| a in log(j);
    var k :| b in log(k);
    var last := if j < k then k else j;
    assert Extends(log(j), log(last)) && Extends(log(k), log(last)) && UniqueIds(log(last));
    var p :| 0 <= p < |log(j)| && log(j)[p] == a;
    var q :| 0 <= q < |log(k)| && log(k)[q] == b;
    assert Place(log(last)[p]) == Place(a) && Place(log(last)[q]) == Place(b);
    hide Growing;
  }

  lemma PageIsTidy(log: nat -> seq<Message>, k: nat, before: Option<int>)
    requires Growing(log) && NeverFalling(log(k))
    ensures Tidy(log, ServePage(log(k), before).0)
    ensures forall m | m in ServePage(log(k), before).0 :: IsBefore(m, before)
  {
    ServeIsASlice(log(k), PAGE_SIZE, before);
    PageIsBefore(log(k), before);
    hide EndBefore;
    assert UniqueIds(log(k));
  }

  lemma PageIsTidyInFront(log: nat -> seq<Message>, page: seq<Message>, s: seq<Message>)
    requires Growing(log) && Tidy(log, page) && Tidy(log, s)
    requires s != [] && forall m | m in page :: m.createdAt < s[0].createdAt
    ensures Tidy(log, page + s)
  {
    forall i, j | 0 <= i < |page| && 0 <= j < |s|
      ensures page[i].createdAt <= s[j].createdAt && page[i].id != s[j].id
    {
      assert page[i] in page && s[j] in s && s[0].createdAt <= s[j].createdAt;
      if page[i].id == s[j].id { SameIdSameTime(log, page[i], s[j]); }
    }
    hide InSome, Growing;
    InFrontIsTidy(page, s);
    assert forall m | m in page + s :: m in page || m in s;
  }

  lemma InFrontIsTidy(page: seq<Message>, s: seq<Message>)
    requires NeverFalling(page) && UniqueIds(page) && NeverFalling(s) && UniqueIds(s)
    requires forall i, j | 0 <= i < |page| && 0 <= j < |s| ::
               page[i].createdAt <= s[j].createdAt && page[i].id != s[j].id
    ensures NeverFalling(page + s) && UniqueIds(page + s)
  {
  }

  lemma TidyIsSorted(copies: seq<Copy>)
    requires NeverFalling(MessagesIn(copies)) && UniqueIds(MessagesIn(copies))
    ensures SortedBy(copies, OlderOrSame) && DistinctKeys(copies, Id)
    ensures copies != [] ==> OldestAt(copies) == Some(MessagesIn(copies)[0].createdAt)
  {
    var s := MessagesIn(copies);
    assert forall i | 0 <= i < |copies| :: s[i] == copies[i].message;
    if copies != [] { OldestIsFirst(copies); }
  }

  lemma JoinsInFront(older: seq<Copy>, newest: seq<Copy>, copies: seq<Copy>)
    requires SortedBy(copies + (older + newest), OlderOrSame) && DistinctKeys(copies + (older + newest), Id)
    ensures MergePages(older, copies) + newest == copies + (older + newest)
  {
    var all := copies + (older + newest);
    assert forall i | 0 <= i < |copies + older| :: (copies + older)[i] == all[i];
    assert forall i | 0 <= i < |copies| :: copies[i] == all[i];
    assert forall i | 0 <= i < |older| :: older[i] == all[|copies| + i];
    hide MergePages, OlderOrSame;
    OlderPageGoesInFront(older, copies);
  }

  /** One more page, on a log that never falls, goes in front of all that is held. */
  lemma PageGoesInFront(log: nat -> seq<Message>, decorate: (nat, Message) -> Copy, k: nat,
                        older: seq<Copy>, newest: seq<Copy>)
    requires OneRoom(log, decorate) && NeverFalling(log(k)) && older + newest != []
    requires Tidy(log, MessagesIn(older + newest))
    ensures var s := MessagesIn(older + newest);
            var (page, more) := ServePage(log(k), Some(s[0].createdAt));
            var (next, still) := LoadMore(log(k), k, decorate, older, newest);
            still == more && MessagesIn(next + newest) == page + s && Tidy(log, page + s)
  {
    var s := MessagesIn(older + newest);
    var page := ServePage(log(k), Some(s[0].createdAt)).0;
    var copies := Decorated(k, page, decorate);
    assert MessagesIn(copies + (older + newest)) == page + s;
    TidyIsSorted(older + newest);
    PageIsTidy(log, k, Some(s[0].createdAt));
    PageIsTidyInFront(log, page, s);
    hide ServePage, OldestAt, Growing, InSome, NeverFalling, UniqueIds;
    TidyIsSorted(copies + (older + newest));
    JoinsInFront(older, newest, copies);
    hide MergePages, MessagesIn, Decorated;
  }

  /** The client's list is what paging by the cursor of the last page gives. */
  ghost predicate HeldIsPages(log: nat -> seq<Message>, decorate: (nat, Message) -> Copy, n: nat) {
    && MessagesIn(Held(log, decorate, n)) == Pages(log, 0, None, n)
    && Tidy(log, Pages(log, 0, None, n))
    && (Loaded(log, decorate, n).1 <==> !Finished(log, 0, None, n))
  }

  lemma FirstIsThePage(log: nat -> seq<Message>, decorate: (nat, Message) -> Copy)
    requires OneRoom(log, decorate) && NeverFalling(log(0))
    ensures HeldIsPages(log, decorate, 0)
  {
    hide ServePage, Tidy, Pages, Finished, Growing, NeverFalling;
    PageIsTidy(log, 0, None);
    AfterOneFetch(log, 0, None, 0);
    assert [] + FirstPage(log, decorate) == FirstPage(log, decorate);
    assert MessagesIn(FirstPage(log, decorate)) == ServePage(log(0), None).0;
  }

  lemma LoadedOnce(log: nat -> seq<Message>, decorate: (nat, Message) -> Copy, n: nat)
    requires n > 0
    ensures var (older, more) := Loaded(log, decorate, n - 1);
            Loaded(log, decorate, n)
            == if more then LoadMore(log(n), n, decorate, older, FirstPage(log, decorate)) else (older, more)
  {
    hide LoadMore, FirstPage;
  }

  lemma OneMoreIsThePage(log: nat -> seq<Message>, decorate: (nat, Message) -> Copy, n: nat)
    requires n > 0 && OneRoom(log, decorate) && NeverFalling(log(n)) && HeldIsPages(log, decorate, n - 1)
    ensures HeldIsPages(log, decorate, n)
  {
    hide FirstPage, ServePage, LoadMore, Loaded, OneRoom, NeverFalling, Tidy, Pages, Finished;
    PagesAndOneMore(log, 0, None, n - 1);
    LoadedOnce(log, decorate, n);
    var (older, more) := Loaded(log, decorate, n - 1);
    if more {
      PageGoesInFront(log, decorate, n, older, FirstPage(log, decorate));
    }
  }

  /** And so fetch by fetch. */
  lemma {:induction false} ClientListIsThePages(log: nat -> seq<Message>, decorate: (nat, Message) -> Copy, n: nat)
    requires OneRoom(log, decorate) && forall k :: NeverFalling(log(k))
    ensures HeldIsPages(log, decorate, n)
  {
    hide HeldIsPages, OneRoom, NeverFalling;
    if n == 0 {
      FirstIsThePage(log, decorate);
    } else {
      ClientListIsThePages(log, decorate, n - 1);
      OneMoreIsThePage(log, decorate, n);
    }
  }

  /** So a client of such a log gets the whole room, in the order of the log, exactly if each fetch
      finds its cursor at a boundary. */
  lemma ClientEndsWithTheRoomExactlyIfItFits(log: nat -> seq<Message>, decorate: (nat, Message) -> Copy)
    requires OneRoom(log, decorate) && forall k :: NeverFalling(log(k))
    ensures (exists n: nat :: !Loaded(log, decorate, n).1 && SamePlaces(MessagesIn(Held(log, decorate, n)), log(0)))
            <==> FitsAtEachFetch(log)
  {
    hide Held, Loaded, Pages, Finished, SamePlaces, Growing, FitsAtEachFetch, MessagesIn, NeverFalling, Tidy;
    forall n: nat
      ensures MessagesIn(Held(log, decorate, n)) == Pages(log, 0, None, n)
      ensures Loaded(log, decorate, n).1 <==> !Finished(log, 0, None, n)
    {
      ClientListIsThePages(log, decorate, n);
    }
    PagingIsCompleteExactlyIfItFits(log);
  }
}
