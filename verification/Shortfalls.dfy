/** Runs of the store in which it, or a client that listens to it, shows less than one would expect. */
module Shortfalls {
  import opened Common
  import opened Ordering
  import opened MessageStore
  import opened StoreRuns
  import opened ClientMerge
  import opened History
  import opened Convergence
  import opened Paging

  const ROOM := Room("room", ["a", "b", "c"], "s", 0)
  const WRITTEN := Message("m", "r", "a", Payload("x", "", "PLAIN-", ""), 0, None, None)

  // ---- The beginning ----

  function Opening(): seq<Event> {
    [] + [Create("r", ROOM, "", "")] + [Append("r", "a", WRITTEN.payload, "m", 0)]
  }

  function Opened(): State {
    State(Db(map["r" := ROOM], map["r" := [WRITTEN]], map[], map[], map[]), 0, map["m" := ("r", 0)], [WRITTEN])
  }

  lemma MembersAreNormal()
    ensures NormalizeMembers(["a", "b", "c"]) == ["a", "b", "c"]
  {
    hide Dedupe, Sort;
    MembersAreDistinct();
    assert StrLe("a", "b") && StrLe("b", "c") && StrLe("a", "c");
    hide StrLe;
    SortOfSorted(["a", "b", "c"], StrLe);
  }

  lemma MembersAreDistinct()
    ensures Dedupe(["a", "b", "c"]) == ["a", "b", "c"]
  {
    assert ["a", "b", "c"][..2] == ["a", "b"] && ["a", "b"][..1] == ["a"] && ["a"][..0] == [];
    assert Dedupe(["a"]) == ["a"] && Dedupe(["a", "b"]) == ["a", "b"];
  }

  function Created(): State {
    State(Db(map["r" := ROOM], map[], map[], map[], map[]), 0, map[], [])
  }

  lemma AfterCreate()
    ensures Step(Init(), Create("r", ROOM, "", "")) == Created()
  {
    MembersAreNormal();
    hide NormalizeMembers;
  }

  lemma AfterAppend()
    ensures Step(Created(), Append("r", "a", WRITTEN.payload, "m", 0)) == Opened()
  {
    assert [] + [WRITTEN] == [WRITTEN];
  }

  lemma OpeningIs()
    ensures Run(Opening()) == Opened()
  {
    var e := [] + [Create("r", ROOM, "", "")];
    assert Run([]) == Init();
    AfterCreate();
    AfterAppend();
    RunOneMore([], Create("r", ROOM, "", ""));
    RunOneMore(e, Append("r", "a", WRITTEN.payload, "m", 0));
    hide Run, Step, Init, Opened, Created;
  }

  // ---- The read flag once the sender has left ----

  function SenderLeaves(): seq<Event> {
    Opening() + [Tick(1)] + [MarkRead("r", "b")] + [Leave("r", "a")]
  }

  function Read(): State {
    Opened().(db := Opened().db.(roomReads := map["r" := map["b" := 1]], messageReads := map["m" := map["b" := 1]]),
              now := 1)
  }

  function Left(): State {
    Read().(db := Read().db.(rooms := map["r" := ROOM.(members := ["b", "c"])]))
  }

  lemma AfterMarkRead()
    ensures Step(Opened().(now := 1), MarkRead("r", "b")) == Read()
  {
    assert [WRITTEN][..0] == [] && MarkMessages(map[], [WRITTEN], "b", 1) == map["m" := map["b" := 1]];
    hide MarkMessages;
  }

  lemma AfterLeave()
    ensures Step(Read(), Leave("r", "a")) == Left()
  {
    hide Without;
    WithoutSender();
  }

  lemma WithoutSender()
    ensures Without(["a", "b", "c"], "a") == ["b", "c"]
  {
    assert ["a", "b", "c"][..2] == ["a", "b"] && ["a", "b"][..1] == ["a"] && ["a"][..0] == [];
    assert Without(["a"], "a") == [] && Without(["a", "b"], "a") == ["b"];
  }

  lemma SenderLeavesIs()
    ensures Run(SenderLeaves()) == Left()
  {
    var e := Opening();
    OpeningIs();
    RunOneMore(e, Tick(1));
    assert Step(Opened(), Tick(1)) == Opened().(now := 1);
    AfterMarkRead();
    AfterLeave();
    RunOneMore(e + [Tick(1)], MarkRead("r", "b"));
    RunOneMore(e + [Tick(1)] + [MarkRead("r", "b")], Leave("r", "a"));
    hide Run, Step, Opening, Opened, Read, Left;
  }

  lemma OneHasRead()
    ensures HasRead(Left().db, WRITTEN, "b") && !HasRead(Left().db, WRITTEN, "c")
    ensures ReadTime(Left().db, WRITTEN, "b") == Some(1)
  {
  }

  lemma WhoHasRead()
    ensures Readers(Left().db, WRITTEN, ["b", "c"]) == ["b"]
    ensures Receipts(Left().db, WRITTEN, ["b"]) == [Receipt("b", 1)]
  {
    hide HasRead, ReadTime, Left;
    OneHasRead();
    var db := Left().db;
    assert ["b", "c"][..1] == ["b"] && ["b"][..0] == [];
    assert Readers(db, WRITTEN, []) == [] && Readers(db, WRITTEN, ["b"]) == ["b"];
    assert Receipts(db, WRITTEN, []) == [];
  }

  /** `a` writes and leaves, `b` has read, `c` has not, and the flag is up. */
  lemma ReadFlagWithoutSender()
    ensures var db := Run(SenderLeaves()).db;
            && MessagesOf(db, "r") == [WRITTEN] && "r" in db.rooms && "c" in db.rooms["r"].members
            && !HasRead(db, WRITTEN, "c")
            && Decorates(db, WRITTEN, Copy(WRITTEN, ["b"], [Receipt("b", 1)], true, []))
  {
    SenderLeavesIs();
    OneHasRead();
    WhoHasRead();
    hide Run, SenderLeaves, HasRead, Readers, Receipts;
    assert "c" in ["b", "c"] by { assert ["b", "c"][1] == "c"; }
    assert Sort(["b"], StrLe) == ["b"] && Sort([Receipt("b", 1)], ReceiptLe) == [Receipt("b", 1)];
    hide Sort;
    assert Tallies([], map[]);
    hide Tallies;
  }

  // ---- Two contents of one millisecond ----

  function Rewritten(): Message {
    WRITTEN.(payload := Payload("y", "", "PLAIN-", ""), editedAt := Some(1))
  }

  function BeforeTheEdit(): seq<Event> {
    Opening() + [React("r", "m", "b", "x")]
  }

  function WithTheEdit(): seq<Event> {
    BeforeTheEdit() + [React("r", "m", "b", "x")] + [Tick(1)] + [Update("r", "m", "a", Rewritten().payload)]
  }

  function ReactedTo(): State {
    Opened().(db := Opened().db.(reactions := map["m" := map["b" := "x"]]))
  }

  function TakenBack(): State {
    Opened().(db := Opened().db.(reactions := map["m" := map[]]))
  }

  function Edited(): State {
    TakenBack().(db := TakenBack().db.(messages := map["r" := [Rewritten()]]), now := 1,
                 history := [WRITTEN, Rewritten()])
  }

  lemma ReactionsAre()
    ensures Run(BeforeTheEdit()) == ReactedTo()
    ensures Run(BeforeTheEdit() + [React("r", "m", "b", "x")]) == TakenBack()
  {
    OpeningIs();
    RunOneMore(Opening(), React("r", "m", "b", "x"));
    RunOneMore(BeforeTheEdit(), React("r", "m", "b", "x"));
    hide Run, Opening;
    assert Step(Opened(), React("r", "m", "b", "x")) == ReactedTo();
    assert map["b" := "x"] - {"b"} == map[];
    assert Step(ReactedTo(), React("r", "m", "b", "x")) == TakenBack();
  }

  lemma AfterEdit()
    ensures Step(TakenBack().(now := 1), Update("r", "m", "a", Rewritten().payload)) == Edited()
  {
    assert [WRITTEN][0 := Rewritten()] == [Rewritten()] && [WRITTEN] + [Rewritten()] == [WRITTEN, Rewritten()];
  }

  lemma EditIs()
    ensures Run(WithTheEdit()) == Edited()
  {
    var e := BeforeTheEdit() + [React("r", "m", "b", "x")];
    ReactionsAre();
    AfterEdit();
    assert Step(TakenBack(), Tick(1)) == TakenBack().(now := 1);
    RunOneMore(e, Tick(1));
    RunOneMore(e + [Tick(1)], Update("r", "m", "a", Rewritten().payload));
    hide Run, BeforeTheEdit, Step, TakenBack, Edited;
  }

  lemma OldIsServed()
    ensures Decorates(ReactedTo().db, WRITTEN, Reacted(WRITTEN))
  {
    NobodyHasRead(ReactedTo().db, WRITTEN);
    assert Holders(map["b" := "x"], "x") == {"b"};
    assert Tallies([Reaction("x", 1)], map["b" := "x"]);
    hide Tallies, Readers;
  }

  lemma NewIsServed()
    ensures Decorates(Edited().db, Rewritten(), Plain(Rewritten()))
  {
    NobodyHasRead(Edited().db, Rewritten());
    assert Tallies([], map[]);
    hide Tallies, Readers;
  }

  lemma NobodyHasRead(db: Db, msg: Message)
    requires db.roomReads == map[] && db.messageReads == map[]
    ensures Readers(db, msg, ["a", "b", "c"]) == []
  {
    assert ["a", "b", "c"][..2] == ["a", "b"] && ["a", "b"][..1] == ["a"] && ["a"][..0] == [];
    assert Readers(db, msg, []) == [] && Readers(db, msg, ["a"]) == [] && Readers(db, msg, ["a", "b"]) == [];
  }

  /** A live event brings the message with a reaction; the reaction is taken back and the message is
      edited, a nanosecond after it was written. A client that then fetches the page, which has the
      edited message, puts the live event after it and shows the old text. */
  lemma OldReplacesNew()
    ensures var before, after := Run(BeforeTheEdit()), Run(WithTheEdit());
            && BeforeTheEdit() < WithTheEdit()
            && MessagesOf(before.db, "r") == [WRITTEN] && Decorates(before.db, WRITTEN, Reacted(WRITTEN))
            && MessagesOf(after.db, "r") == [Rewritten()] && Decorates(after.db, Rewritten(), Plain(Rewritten()))
            && Later(after.history, WRITTEN, Rewritten())
            && Merge([Plain(Rewritten())], [Reacted(WRITTEN)], "r") == [Reacted(WRITTEN)]
            && !Spaced(WithTheEdit())
  {
    EditIs();
    ReactionsAre();
    OldIsServed();
    NewIsServed();
    RunKeepsHistory(WithTheEdit());
    hide Run, Spaced, Decorates, Merge, HistoryInv, LogInv;
    assert Version(WRITTEN) == Version(Rewritten());
    LastOfOneVersionStays(WRITTEN, Rewritten());
    var history := Edited().history;
    assert history[0] == WRITTEN && history[1] == Rewritten();
    assert !Raises(history[0], history[1]);
    hide Rising;
  }

  // ---- Two appends that cross ----

  const LATE := WRITTEN.(id := "late", createdAt := 2 * MICROSECOND)
  const EARLY := WRITTEN.(id := "early", createdAt := MICROSECOND)

  /** Both calls have read the clock before either takes the lock. */
  function Crossing(): seq<Event> {
    [] + [Create("r", ROOM, "", "")] + [Tick(2 * MICROSECOND)]
    + [Append("r", "a", WRITTEN.payload, "late", 2 * MICROSECOND)]
    + [Append("r", "a", WRITTEN.payload, "early", MICROSECOND)]
  }

  function Waiting(): State {
    Created().(now := 2 * MICROSECOND)
  }

  function OneIn(): State {
    Waiting().(db := Created().db.(messages := map["r" := [LATE]]), home := map["late" := ("r", 0)], history := [LATE])
  }

  function Crossed(): State {
    Waiting().(db := Created().db.(messages := map["r" := [LATE, EARLY]]),
                 home := map["late" := ("r", 0), "early" := ("r", 1)], history := [LATE, EARLY])
  }

  lemma AfterCrossing()
    ensures Step(Created(), Tick(2 * MICROSECOND)) == Waiting()
    ensures Step(Waiting(), Append("r", "a", WRITTEN.payload, "late", 2 * MICROSECOND)) == OneIn()
    ensures Step(OneIn(), Append("r", "a", WRITTEN.payload, "early", MICROSECOND)) == Crossed()
  {
    assert [] + [LATE] == [LATE] && [LATE] + [EARLY] == [LATE, EARLY];
  }

  lemma CrossingIs()
    ensures Run(Crossing()) == Crossed()
  {
    hide Run, Step, Init, Created, Waiting, OneIn, Crossed;
    var e := [] + [Create("r", ROOM, "", "")];
    assert Run([]) == Init() by { RunOfNothing(); }
    AfterCreate();
    AfterCrossing();
    RunOneMore([], Create("r", ROOM, "", ""));
    RunOneMore(e, Tick(2 * MICROSECOND));
    e := e + [Tick(2 * MICROSECOND)];
    RunOneMore(e, Append("r", "a", WRITTEN.payload, "late", 2 * MICROSECOND));
    e := e + [Append("r", "a", WRITTEN.payload, "late", 2 * MICROSECOND)];
    RunOneMore(e, Append("r", "a", WRITTEN.payload, "early", MICROSECOND));
  }

  lemma RunOfNothing()
    ensures Run([]) == Init()
  {
  }

  /** The log is out of order, and the context page of its first message goes past it, though times
      are whole microseconds and nothing was created in the microsecond after it. */
  lemma ContextGoesPastItsTarget()
    ensures var log := MessagesOf(Run(Crossing()).db, "r");
            && log == [LATE, EARLY] && InWholeMicroseconds(log) && UniqueIds(log)
            && (forall m | m in log && m != LATE :: !(LATE.createdAt <= m.createdAt < LATE.createdAt + MICROSECOND))
            && !NeverFalling(log)
            && ServeContext(log, "late") == Ok(([LATE, EARLY], false))
  {
    CrossingIs();
    hide Run, Crossing;
    var log := [LATE, EARLY];
    assert log[0] == LATE && log[1] == EARLY && "late" != "early";
    assert Find(log, "late") == 0;
    hide Serve, EndBefore, Find;
    assert log[0].createdAt > log[1].createdAt;
    var before := Some(log[0].createdAt + MICROSECOND);
    ServeIsASlice(log, CONTEXT_SIZE, before);
    EndBeforeIs(log, log[0].createdAt + MICROSECOND);
    assert EndBefore(log, before) == 2 && log[0..2] == log;
    assert Serve(log, CONTEXT_SIZE, before) == (log, false);
  }
}
