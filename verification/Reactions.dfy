/** What the reactions shown under a message say about who reacted. */
module Reactions {
  import opened Ordering
  import opened MessageStore

  function Sum(shown: seq<Reaction>): nat {
    if shown == [] then 0 else Sum(shown[..|shown| - 1]) + shown[|shown| - 1].count
  }

  /** Without the holders of one emoji. */
  function Others(holders: map<string, string>, emoji: string): map<string, string> {
    holders - Holders(holders, emoji)
  }

  lemma OthersAndHolders(holders: map<string, string>, emoji: string)
    ensures |holders| == |Others(holders, emoji)| + |Holders(holders, emoji)|
    ensures forall other | other != emoji :: Holders(Others(holders, emoji), other) == Holders(holders, other)
  {
    var rest := Others(holders, emoji);
    assert rest.Keys + Holders(holders, emoji) == holders.Keys;
    assert |rest.Keys| + |Holders(holders, emoji)| == |holders.Keys|;
    assert |holders.Keys| == |holders| && |rest.Keys| == |rest|;
  }

  lemma EarlierDiffers(shown: seq<Reaction>, holders: map<string, string>, r: Reaction)
    requires Tallies(shown, holders) && shown != [] && r in shown[..|shown| - 1]
    ensures r in shown && r.emoji != shown[|shown| - 1].emoji
  {
    var i :| 0 <= i < |shown| - 1 && shown[i] == r;
    StrLessIsIrreflexive(r.emoji);
    hide StrLess;
  }

  lemma LastTally(shown: seq<Reaction>, holders: map<string, string>)
    requires Tallies(shown, holders) && shown != []
    ensures var last := shown[|shown| - 1];
            && Tallies(shown[..|shown| - 1], Others(holders, last.emoji))
            && |holders| == |Others(holders, last.emoji)| + last.count
  {
    hide StrLess, Holders;
    var n := |shown| - 1;
    var last := shown[n];
    var rest := Others(holders, last.emoji);
    assert last in shown;
    OthersAndHolders(holders, last.emoji);
    forall r | r in shown[..n] ensures r.count == |Holders(rest, r.emoji)| && r.count > 0 {
      EarlierDiffers(shown, holders, r);
    }
    forall u | u in rest ensures exists r | r in shown[..n] :: r.emoji == rest[u] {
      NotAHolder(holders, last.emoji, u);
      var r :| r in shown && r.emoji == holders[u];
      assert r != last;
    }
  }

  lemma NotAHolder(holders: map<string, string>, emoji: string, user: string)
    requires user in Others(holders, emoji)
    ensures user in holders && holders[user] == Others(holders, emoji)[user] != emoji
  {
  }

  /** The counts add up to the number of users who reacted. */
  lemma {:induction false} CountsAddUp(shown: seq<Reaction>, holders: map<string, string>)
    requires Tallies(shown, holders)
    ensures Sum(shown) == |holders|
  {
    if shown == [] {
      assert holders.Keys == {} by { assert forall u :: u !in holders; }
      assert |holders| == |holders.Keys|;
    } else {
      var last := shown[|shown| - 1];
      LastTally(shown, holders);
      CountsAddUp(shown[..|shown| - 1], Others(holders, last.emoji));
    }
  }

  lemma ShownExactlyIfHeld(shown: seq<Reaction>, holders: map<string, string>, emoji: string)
    requires Tallies(shown, holders)
    ensures (exists r | r in shown :: r.emoji == emoji) <==> emoji in holders.Values
  {
    if r :| r in shown && r.emoji == emoji {
      assert |Holders(holders, emoji)| > 0;
      var u :| u in Holders(holders, emoji);
      assert holders[u] in holders.Values;
    }
    if emoji in holders.Values {
      var u :| u in holders && holders[u] == emoji;
    }
  }

  /** There is only one way to show the reactions. */
  lemma {:induction false} ShownIsUnique(a: seq<Reaction>, b: seq<Reaction>, holders: map<string, string>)
    requires Tallies(a, holders) && Tallies(b, holders)
    ensures a == b
    decreases |a|
  {
    EmptyTogether(a, holders);
    EmptyTogether(b, holders);
    if a != [] && b != [] {
      SameLast(a, b, holders);
      LastTally(a, holders);
      LastTally(b, holders);
      hide Tallies, Others;
      ShownIsUnique(a[..|a| - 1], b[..|b| - 1], Others(holders, a[|a| - 1].emoji));
      SameEnds(a, b);
    }
  }

  lemma SameEnds<T>(a: seq<T>, b: seq<T>)
    requires a != [] && b != [] && a[..|a| - 1] == b[..|b| - 1] && a[|a| - 1] == b[|b| - 1]
    ensures a == b
  {
    assert a == a[..|a| - 1] + [a[|a| - 1]] && b == b[..|b| - 1] + [b[|b| - 1]];
  }

  lemma EmptyTogether(shown: seq<Reaction>, holders: map<string, string>)
    requires Tallies(shown, holders)
    ensures shown == [] <==> |holders| == 0
  {
    CountsAddUp(shown, holders);
    if shown != [] { assert shown[|shown| - 1] in shown; }
    hide Tallies;
  }

  lemma LastIsGreatest(shown: seq<Reaction>, holders: map<string, string>, emoji: string)
    requires Tallies(shown, holders) && shown != [] && emoji in holders.Values
    ensures StrLe(emoji, shown[|shown| - 1].emoji)
    ensures shown[|shown| - 1].emoji in holders.Values
  {
    ShownExactlyIfHeld(shown, holders, emoji);
    assert shown[|shown| - 1] in shown;
    ShownExactlyIfHeld(shown, holders, shown[|shown| - 1].emoji);
    var r :| r in shown && r.emoji == emoji;
    var i :| 0 <= i < |shown| && shown[i] == r;
    hide StrLess;
  }

  lemma SameLast(a: seq<Reaction>, b: seq<Reaction>, holders: map<string, string>)
    requires Tallies(a, holders) && Tallies(b, holders) && a != [] && b != []
    ensures a[|a| - 1] == b[|b| - 1]
  {
    var x, y := a[|a| - 1].emoji, b[|b| - 1].emoji;
    assert a[|a| - 1] in a && b[|b| - 1] in b;
    ShownExactlyIfHeld(a, holders, x);
    LastIsGreatest(b, holders, x);
    LastIsGreatest(a, holders, y);
    hide Tallies, StrLess;
    if x != y {
      StrLessIsTransitive(x, y, x);
      StrLessIsIrreflexive(x);
    }
  }

  /** Toggling an emoji twice gives back the start exactly when the user began without a
      reaction or with that emoji; otherwise the user ends without one. */
  lemma ToggleTwice(holders: map<string, string>, userId: string, emoji: string)
    ensures Toggle(Toggle(holders, userId, emoji), userId, emoji) == holders
       <==> userId !in holders || holders[userId] == emoji
    ensures userId in holders && holders[userId] != emoji ==>
              Toggle(Toggle(holders, userId, emoji), userId, emoji) == holders - {userId}
  {
    var twice := Toggle(Toggle(holders, userId, emoji), userId, emoji);
    if userId in holders {
      if holders[userId] == emoji {
        assert twice == holders;
      } else {
        assert userId !in twice;
      }
    }
  }

  /** A toggle moves one user and nobody else: in, out, or from one emoji to another. */
  lemma ToggleMovesOneUser(holders: map<string, string>, userId: string, emoji: string, shown: string)
    ensures var before, after := Holders(holders, shown), Holders(Toggle(holders, userId, emoji), shown);
            && after - {userId} == before - {userId}
            && (userId in after <==> shown == emoji && userId !in before)
  {
  }
}
