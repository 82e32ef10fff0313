/**
 Migration step 33 on `channel_performance`: the rows named `Telegram Auto (X)` are merged
 onto X by three statements and then deleted.
 */
module ChannelMerge {
  import opened Common

  datatype Channel = Channel(paused: int, override: int)

  // Keyed by `source`, the primary key.
  type Channels = map<string, Channel>

  const PREFIX := "Telegram Auto ("

  function Wrap(source: string): string { PREFIX + source + ")" }

  // `source LIKE 'Telegram Auto (%)'`; SQLite's LIKE ignores case.
  predicate IsWrapped(source: string) {
    |source| > |PREFIX| && Lower(source[..|PREFIX|]) == "telegram auto (" && source[|source| - 1] == ')'
  }

  // REPLACE(s, pattern, '')
  function Remove(s: string, pattern: string): string
    requires pattern != ""
    decreases |s|
  {
    if |s| < |pattern| then s
    else if s[..|pattern|] == pattern then Remove(s[|pattern|..], pattern)
    else [s[0]] + Remove(s[1..], pattern)
  }

  function Unwrap(source: string): string { Remove(Remove(source, PREFIX), ")") }

  /******* The three statements *******/

  function Targets(rows: Channels): set<string> {
    set w | w in rows && IsWrapped(w) :: Unwrap(w)
  }

  function Unpause(rows: Channels): Channels {
    map s | s in rows :: if s in Targets(rows) then rows[s].(paused := 0) else rows[s]
  }

  function Carry(rows: Channels): Channels {
    map s | s in rows ::
      if rows[s].override == 0 && Wrap(s) in rows && rows[Wrap(s)].override == 1
      then rows[s].(override := 1) else rows[s]
  }

  function DeleteWrapped(rows: Channels): Channels {
    map s | s in rows && !IsWrapped(s) :: rows[s]
  }

  /******* Replaying the second statement after a crash *******/

  /** A manual override sits `n` wrappings away from `source`, with no override in between. */
  predicate Chain(rows: Channels, source: string, n: nat)
    decreases n
  {
    && source in rows
    && if n == 0 then rows[source].override == 1
       else rows[source].override == 0 && Chain(rows, Wrap(source), n - 1)
  }

  /** No surviving row is two or more wrappings away from an override. */
  ghost predicate NoDeepChain(rows: Channels) {
    forall source, n: nat :: !DeepChain(rows, source, n)
  }

  ghost predicate DeepChain(rows: Channels, source: string, n: nat) {
    n >= 2 && !IsWrapped(source) && Chain(rows, source, n)
  }

  // The second statement run `n` times over, as crashes before the third make it.
  function CarryTimes(rows: Channels, n: nat): Channels {
    if n == 0 then rows else Carry(CarryTimes(rows, n - 1))
  }

  lemma {:induction false} ChainAfterCarry(rows: Channels, source: string, n: nat)
    requires n >= 1
    ensures Chain(Carry(rows), source, n) <==> Chain(rows, source, n + 1)
    decreases n
  {
    if n > 1 {
      ChainAfterCarry(rows, Wrap(source), n - 1);
    } else {
      OneAway(Carry(rows), source);
      TwoAway(rows, source);
    }
  }

  lemma OneAway(rows: Channels, source: string)
    ensures Chain(rows, source, 1) <==>
            source in rows && rows[source].override == 0 && Wrap(source) in rows && rows[Wrap(source)].override == 1
  {
    assert Chain(rows, Wrap(source), 0) <==> Wrap(source) in rows && rows[Wrap(source)].override == 1;
  }

  lemma TwoAway(rows: Channels, source: string)
    ensures Chain(rows, source, 2) <==> source in rows && rows[source].override == 0 && Chain(rows, Wrap(source), 1)
  {
    OneAway(rows, Wrap(source));
  }

  lemma CarryKeepsNoDeepChain(rows: Channels)
    requires NoDeepChain(rows)
    ensures NoDeepChain(Carry(rows))
  {
    forall source, n: nat | n >= 2
      ensures !DeepChain(Carry(rows), source, n)
    {
      ChainAfterCarry(rows, source, n);
      assert !DeepChain(rows, source, n + 1);
    }
  }

  lemma SecondCarryChanges(rows: Channels, source: string)
    requires source in rows
    ensures Carry(Carry(rows))[source] != Carry(rows)[source] <==> Chain(Carry(rows), source, 1)
  {
    OneAway(Carry(rows), source);
  }

  lemma CarryTwice(rows: Channels)
    requires NoDeepChain(rows)
    ensures DeleteWrapped(Carry(Carry(rows))) == DeleteWrapped(Carry(rows))
  {
    forall source | source in rows && !IsWrapped(source)
      ensures Carry(Carry(rows))[source] == Carry(rows)[source]
    {
      SecondCarryChanges(rows, source);
      ChainAfterCarry(rows, source, 1);
      assert !DeepChain(rows, source, 2);
    }
  }

  lemma {:induction false} CarryAgain(rows: Channels, n: nat)
    requires NoDeepChain(rows)
    ensures DeleteWrapped(CarryTimes(rows, n + 1)) == DeleteWrapped(Carry(rows))
    ensures NoDeepChain(CarryTimes(rows, n))
  {
    if n > 0 {
      CarryAgain(rows, n - 1);
      CarryKeepsNoDeepChain(CarryTimes(rows, n - 1));
      CarryTwice(CarryTimes(rows, n - 1));
    }
  }

  lemma FindDeepChain(rows: Channels) returns (source: string, n: nat)
    requires !NoDeepChain(rows)
    ensures n >= 1 && DeepChain(rows, source, n + 1)
  {
    var depth: nat;
    source, depth :| DeepChain(rows, source, depth);
    n := depth - 1;
  }

  // A chain moves one wrapping closer with every replay and finally reaches the surviving row.
  lemma {:induction false} ChainMoves(rows: Channels, source: string, n: nat, k: nat)
    requires Chain(rows, source, n) && k < n
    ensures Chain(CarryTimes(rows, k), source, n - k)
  {
    if k > 0 {
      ChainMoves(rows, source, n, k - 1);
      ChainAfterCarry(CarryTimes(rows, k - 1), source, n - k);
    }
  }

  /**
   Any number of crashes between the second and third statement leave the merged table as one
   clean pass would iff no surviving row is two or more wrappings away from an override.
   */
  lemma ReplayExactly(rows: Channels)
    ensures (forall n: nat :: n >= 1 ==> DeleteWrapped(CarryTimes(rows, n)) == DeleteWrapped(Carry(rows)))
            <==> NoDeepChain(rows)
  {
    if NoDeepChain(rows) {
      forall n: nat | n >= 1
        ensures DeleteWrapped(CarryTimes(rows, n)) == DeleteWrapped(Carry(rows))
      {
        CarryAgain(rows, n - 1);
      }
    } else {
      var n := SomeReplayDiffers(rows);
    }
  }

  lemma SomeReplayDiffers(rows: Channels) returns (n: nat)
    requires !NoDeepChain(rows)
    ensures n >= 1 && DeleteWrapped(CarryTimes(rows, n)) != DeleteWrapped(Carry(rows))
  {
    var source, m := FindDeepChain(rows);
    n := m + 1;
    ReplayDiffers(rows, source, n);
  }

  lemma ReplayDiffers(rows: Channels, source: string, n: nat)
    requires DeepChain(rows, source, n)
    ensures DeleteWrapped(CarryTimes(rows, n)) != DeleteWrapped(Carry(rows))
  {
    var last := CarryTimes(rows, n - 1);
    ChainMoves(rows, source, n, n - 1);
    ChainMoves(rows, source, n, 1);
    OneAway(last, source);
    assert CarryTimes(rows, 1) == Carry(CarryTimes(rows, 0)) == Carry(rows);
    assert Carry(rows)[source].override == 0;
    assert DeleteWrapped(Carry(last))[source].override == 1;
    assert DeleteWrapped(Carry(rows))[source].override == 0;
  }

  /******* The second statement row by row *******/

  // One row, tested on the table so far.
  function CarryRow(now: Channels, s: string): Channels {
    if s in now && now[s].override == 0 && Wrap(s) in now && now[Wrap(s)].override == 1
    then now[s := now[s].(override := 1)] else now
  }

  function CarryInOrder(rows: Channels, order: seq<string>): Channels
    decreases |order|
  {
    if order == [] then rows else CarryInOrder(CarryRow(rows, order[0]), order[1..])
  }

  // Every row once.
  ghost predicate Visits(rows: Channels, order: seq<string>) {
    && (forall s :: s in order <==> s in rows)
    && Distinct(order)
  }

  predicate Distinct(names: seq<string>) { forall i, j :: 0 <= i < j < |names| ==> names[i] != names[j] }

  // What any part of a pass may have done: a row still to come is untouched, and a row that has
  // been given an override stands at the near end of a chain.
  ghost predicate PartlyCarried(now: Channels, rows: Channels, left: seq<string>) {
    && now.Keys == rows.Keys
    && (forall s :: s in left && s in rows ==> now[s] == rows[s])
    && forall s :: s in rows ==>
         now[s] == rows[s] || (now[s] == rows[s].(override := 1) && exists n: nat :: n >= 1 && Chain(rows, s, n))
  }

  // And a row that has been visited and survives is as the snapshot makes it.
  ghost predicate Carried(now: Channels, rows: Channels, left: seq<string>) {
    forall s :: s in rows && s in now && s !in left && !IsWrapped(s) ==> now[s] == Carry(rows)[s]
  }

  lemma VisitRow(now: Channels, rows: Channels, left: seq<string>)
    requires left != [] && left[0] in rows && left[0] !in left[1..] && PartlyCarried(now, rows, left)
    ensures PartlyCarried(CarryRow(now, left[0]), rows, left[1..])
    ensures NoDeepChain(rows) && Carried(now, rows, left) ==> Carried(CarryRow(now, left[0]), rows, left[1..])
  {
    var s, next := left[0], CarryRow(now, left[0]);
    OneAway(rows, s);
    if next != now {
      if rows[Wrap(s)].override == 1 {
        assert Chain(rows, s, 1);
      } else {
        var n: nat :| n >= 1 && Chain(rows, Wrap(s), n);
        assert Chain(rows, s, n + 1);
        assert NoDeepChain(rows) && !IsWrapped(s) ==> !DeepChain(rows, s, n + 1);
      }
    }
    assert forall t :: t in left <==> t == s || t in left[1..];
  }

  lemma {:induction false} VisitRows(now: Channels, rows: Channels, left: seq<string>)
    requires NoDeepChain(rows) && PartlyCarried(now, rows, left) && Carried(now, rows, left)
    requires (forall s :: s in left ==> s in rows) && Distinct(left)
    ensures CarryInOrder(now, left).Keys == rows.Keys && Carried(CarryInOrder(now, left), rows, [])
    decreases |left|
  {
    if left != [] {
      assert left[0] in left && left[0] !in left[1..];
      VisitRow(now, rows, left);
      VisitRows(CarryRow(now, left[0]), rows, left[1..]);
    }
  }

  // The chain from its far end to `source`.
  function Inwards(source: string, n: nat): seq<string>
    decreases n
  {
    if n == 0 then [] else Inwards(Wrap(source), n - 1) + [source]
  }

  lemma {:induction false} InwardsGrow(source: string, n: nat)
    ensures forall s :: s in Inwards(source, n) ==> |s| >= |source|
    ensures Distinct(Inwards(source, n))
    decreases n
  {
    if n > 0 {
      InwardsGrow(Wrap(source), n - 1);
    }
  }

  lemma {:induction false} CarryConcat(rows: Channels, a: seq<string>, b: seq<string>)
    ensures CarryInOrder(rows, a + b) == CarryInOrder(CarryInOrder(rows, a), b)
    decreases |a|
  {
    if a == [] {
      assert a + b == b;
    } else {
      assert (a + b)[1..] == a[1..] + b;
      CarryConcat(CarryRow(rows, a[0]), a[1..], b);
    }
  }

  lemma {:induction false} CarryKeepsRest(rows: Channels, order: seq<string>, s: string)
    requires s in rows
    ensures s in CarryInOrder(rows, order)
    ensures s !in order ==> CarryInOrder(rows, order)[s] == rows[s]
    ensures rows[s].override == 1 ==> CarryInOrder(rows, order)[s].override == 1
    decreases |order|
  {
    if order != [] {
      CarryKeepsRest(CarryRow(rows, order[0]), order[1..], s);
    }
  }

  // Visited from its far end, a chain carries its override all the way.
  lemma {:induction false} InwardsCarries(rows: Channels, source: string, n: nat)
    requires n >= 1 && Chain(rows, source, n)
    ensures source in CarryInOrder(rows, Inwards(source, n))
    ensures CarryInOrder(rows, Inwards(source, n))[source].override == 1
    decreases n
  {
    var before := Inwards(Wrap(source), n - 1);
    var now := CarryInOrder(rows, before);
    InwardsGrow(Wrap(source), n - 1);
    assert source !in before;
    CarryKeepsRest(rows, before, source);
    if n > 1 {
      InwardsCarries(rows, Wrap(source), n - 1);
    } else {
      OneAway(rows, source);
    }
    CarryConcat(rows, before, [source]);
    assert [source][1..] == [];
    assert CarryInOrder(now, [source]) == CarryInOrder(CarryRow(now, source), []);
  }

  lemma {:induction false} Listing(names: set<string>) returns (order: seq<string>)
    ensures forall s :: s in order <==> s in names
    ensures Distinct(order)
    decreases |names|
  {
    if names == {} {
      order := [];
    } else {
      var s :| s in names;
      var rest := Listing(names - {s});
      order := [s] + rest;
    }
  }

  lemma {:induction false} InwardsInRows(rows: Channels, source: string, n: nat)
    requires Chain(rows, source, n)
    ensures forall s :: s in Inwards(source, n) ==> s in rows
    decreases n
  {
    if n > 0 {
      InwardsInRows(rows, Wrap(source), n - 1);
    }
  }

  // A pass over all rows that begins with the chain.
  lemma StartingWith(rows: Channels, first: seq<string>) returns (rest: seq<string>)
    requires Distinct(first) && forall s :: s in first ==> s in rows
    ensures Visits(rows, first + rest)
  {
    var done := set s | s in first;
    rest := Listing(rows.Keys - done);
    forall i, j | 0 <= i < j < |first + rest| ensures (first + rest)[i] != (first + rest)[j] {
      if i < |first| <= j {
        assert first[i] in done && rest[j - |first|] in rest;
      }
    }
  }

  lemma InwardsFirst(rows: Channels, source: string, n: nat) returns (order: seq<string>)
    requires DeepChain(rows, source, n)
    ensures Visits(rows, order)
    ensures DeleteWrapped(CarryInOrder(rows, order)) != DeleteWrapped(Carry(rows))
  {
    var first := Inwards(source, n);
    InwardsInRows(rows, source, n);
    InwardsGrow(source, n);
    var rest := StartingWith(rows, first);
    order := first + rest;
    InwardsCarries(rows, source, n);
    CarryConcat(rows, first, rest);
    CarryKeepsRest(CarryInOrder(rows, first), rest, source);
    EndsDiffer(rows, CarryInOrder(rows, order), source, n);
  }

  lemma EndsDiffer(rows: Channels, after: Channels, source: string, n: nat)
    requires DeepChain(rows, source, n) && source in after && after[source].override == 1
    ensures DeleteWrapped(after) != DeleteWrapped(Carry(rows))
  {
    OneAway(rows, source);
    assert Chain(rows, Wrap(source), n - 1);
    assert Carry(rows)[source].override == 0;
    assert DeleteWrapped(after)[source].override == 1;
    assert DeleteWrapped(Carry(rows))[source].override == 0;
  }

  /**
   The second statement has a subquery on the table it updates.  Row by row, in whatever order,
   it leaves the merged table that the snapshot leaves iff no override sits deep.
   */
  lemma CarryOrderExactly(rows: Channels)
    ensures (forall order :: Visits(rows, order) ==>
               DeleteWrapped(CarryInOrder(rows, order)) == DeleteWrapped(Carry(rows)))
            <==> NoDeepChain(rows)
  {
    if NoDeepChain(rows) {
      forall order | Visits(rows, order)
        ensures DeleteWrapped(CarryInOrder(rows, order)) == DeleteWrapped(Carry(rows))
      {
        VisitRows(rows, rows, order);
      }
    } else {
      var source, n := FindDeepChain(rows);
      var order := InwardsFirst(rows, source, n + 1);
    }
  }

  /******* Idempotence of the rest *******/

  lemma UnpauseIdempotent(rows: Channels)
    ensures Unpause(Unpause(rows)) == Unpause(rows)
  {
    assert Targets(Unpause(rows)) == Targets(rows);
  }

  lemma CarryKeepsUnpaused(rows: Channels)
    requires Unpause(rows) == rows
    ensures Unpause(Carry(rows)) == Carry(rows)
  {
    var after := Carry(rows);
    assert Targets(after) == Targets(rows);
    forall s | s in rows ensures Unpause(after)[s] == after[s] {
      assert Unpause(rows)[s] == rows[s];
    }
  }

  lemma {:induction false} CarryTimesKeepsUnpaused(rows: Channels, n: nat)
    requires Unpause(rows) == rows
    ensures Unpause(CarryTimes(rows, n)) == CarryTimes(rows, n)
  {
    if n > 0 {
      CarryTimesKeepsUnpaused(rows, n - 1);
      CarryKeepsUnpaused(CarryTimes(rows, n - 1));
    }
  }

  lemma {:induction false} UnpauseKeepsChain(rows: Channels, source: string, n: nat)
    ensures Chain(Unpause(rows), source, n) <==> Chain(rows, source, n)
    decreases n
  {
    if n > 0 {
      UnpauseKeepsChain(rows, Wrap(source), n - 1);
    }
  }

  lemma UnpauseKeepsNoDeepChain(rows: Channels)
    requires NoDeepChain(rows)
    ensures NoDeepChain(Unpause(rows))
  {
    forall source, n: nat ensures !DeepChain(Unpause(rows), source, n) {
      UnpauseKeepsChain(rows, source, n);
      assert !DeepChain(rows, source, n);
    }
  }

  // A clean pass after `n` interrupted replays ends differently from a clean pass alone.
  ghost predicate ReplayShows(rows: Channels, n: nat) {
    DeleteWrapped(Carry(CarryTimes(Unpause(rows), n))) != DeleteWrapped(Carry(Unpause(rows)))
  }

  lemma DeepChainAt(rows: Channels, source: string, n: nat)
    requires DeepChain(rows, source, n + 1)
    ensures ReplayShows(rows, n)
  {
    UnpauseKeepsChain(rows, source, n + 1);
    ReplayDiffers(Unpause(rows), source, n + 1);
  }

  // Where a deep chain exists, some number of replays of the first two statements shows.
  lemma DeepChainShows(rows: Channels) returns (n: nat)
    requires !NoDeepChain(rows)
    ensures n >= 1
    ensures ReplayShows(rows, n)
  {
    var source;
    source, n := FindDeepChain(rows);
    DeepChainAt(rows, source, n);
  }

  lemma WrapIsWrapped(source: string)
    ensures IsWrapped(Wrap(source))
  {
    assert Wrap(source)[..|PREFIX|] == PREFIX;
    assert Lower(PREFIX) == "telegram auto (";
  }

  /** Once the wrapped rows are gone all three statements change nothing. */
  lemma MergedIsStable(rows: Channels)
    ensures var merged := DeleteWrapped(rows);
            Unpause(merged) == merged && Carry(merged) == merged && DeleteWrapped(merged) == merged
            && NoDeepChain(merged)
  {
    var merged := DeleteWrapped(rows);
    assert Targets(merged) == {};
    forall s | s in merged ensures Wrap(s) !in merged {
      WrapIsWrapped(s);
    }
    forall source, n: nat | n >= 2
      ensures !DeepChain(merged, source, n)
    {
      WrapIsWrapped(source);
      assert !Chain(merged, Wrap(source), n - 1);
    }
  }

  /******* Which twins are unpaused *******/

  lemma {:induction false} RemoveChar(s: string)
    ensures ')' !in Remove(s, ")")
    ensures ')' !in s ==> Remove(s, ")") == s
  {
    if s != [] {
      RemoveChar(s[1..]);
      assert s == [s[0]] + s[1..];
      assert s[..1] == [s[0]];
    }
  }

  predicate Contains(s: string, pattern: string) {
    |s| >= |pattern| > 0 && (s[..|pattern|] == pattern || Contains(s[1..], pattern))
  }

  lemma {:induction false} RemoveAbsent(s: string, pattern: string)
    requires pattern != "" && !Contains(s, pattern)
    ensures Remove(s, pattern) == s
    decreases |s|
  {
    if |s| >= |pattern| {
      RemoveAbsent(s[1..], pattern);
    }
  }

  lemma {:induction false} AbsentBeforeBracket(source: string)
    requires !Contains(source, PREFIX)
    ensures !Contains(source + ")", PREFIX)
    decreases |source|
  {
    var tail := source + ")";
    if |tail| >= |PREFIX| {
      assert tail[..|PREFIX|][|PREFIX| - 1] == tail[|PREFIX| - 1];
      if |source| >= |PREFIX| {
        assert tail[..|PREFIX|] == source[..|PREFIX|];
        AbsentBeforeBracket(source[1..]);
        assert tail[1..] == source[1..] + ")";
      }
    }
  }

  lemma {:induction false} RemoveShortens(s: string, pattern: string)
    requires pattern != ""
    ensures |Remove(s, pattern)| <= |s|
    ensures Contains(s, pattern) ==> |Remove(s, pattern)| < |s|
    decreases |s|
  {
    if |s| >= |pattern| {
      if s[..|pattern|] == pattern {
        RemoveShortens(s[|pattern|..], pattern);
      } else {
        RemoveShortens(s[1..], pattern);
      }
    }
  }

  // Taking the prefix out leaves the closing bracket at the end.
  lemma {:induction false} BracketStays(source: string)
    ensures ')' in Remove(source + ")", PREFIX)
    decreases |source|
  {
    var s := source + ")";
    if |s| >= |PREFIX| && s[..|PREFIX|] == PREFIX {
      assert s[..|PREFIX|][|PREFIX| - 1] == s[|PREFIX| - 1];
      assert s[|PREFIX|..] == source[|PREFIX|..] + ")";
      BracketStays(source[|PREFIX|..]);
    } else if source != "" {
      assert s[1..] == source[1..] + ")";
      BracketStays(source[1..]);
    }
  }

  lemma {:induction false} ContainsBracket(s: string)
    requires ')' in s
    ensures Contains(s, ")")
  {
    if s[..1] != ")" {
      assert s == [s[0]] + s[1..];
      ContainsBracket(s[1..]);
    }
  }

  lemma {:induction false} ContainsLonger(s: string, t: string, pattern: string)
    requires Contains(s, pattern)
    ensures Contains(s + t, pattern)
  {
    if s[..|pattern|] == pattern {
      assert (s + t)[..|pattern|] == pattern;
    } else {
      ContainsLonger(s[1..], t, pattern);
      assert (s + t)[1..] == s[1..] + t;
    }
  }

  // A channel name free of both halves of the wrapping.
  predicate PlainName(source: string) { ')' !in source && !Contains(source, PREFIX) }

  /** The nested REPLACE undoes the wrapping exactly for plain names. */
  lemma WrapRoundTrip(source: string)
    ensures Unwrap(Wrap(source)) == source <==> PlainName(source)
  {
    var x := Remove(source + ")", PREFIX);
    assert Wrap(source)[..|PREFIX|] == PREFIX && Wrap(source)[|PREFIX|..] == source + ")";
    assert Unwrap(Wrap(source)) == Remove(x, ")");
    RemoveChar(x);
    if PlainName(source) {
      AbsentBeforeBracket(source);
      RemoveAbsent(source + ")", PREFIX);
      RemoveTail(source);
    } else if ')' !in source {
      ContainsLonger(source, ")", PREFIX);
      RemoveShortens(source + ")", PREFIX);
      BracketStays(source);
      ContainsBracket(x);
      RemoveShortens(x, ")");
    }
  }

  lemma {:induction false} RemoveTail(source: string)
    requires ')' !in source
    ensures Remove(source + ")", ")") == source
  {
    var s := source + ")";
    if source == [] {
      assert s[..1] == ")" && s[1..] == "";
    } else {
      RemoveTail(source[1..]);
      assert s[1..] == source[1..] + ")" && s[..1] == [source[0]];
    }
  }

  /** LIKE 'Telegram Auto (%)': the prefix in either case, anything, and a closing bracket. */
  lemma IsWrappedExactly(source: string)
    ensures IsWrapped(source) <==>
            exists prefix, name :: source == prefix + name + ")" && Lower(prefix) == "telegram auto ("
  {
    if IsWrapped(source) {
      var prefix, name := source[..|PREFIX|], source[|PREFIX|..|source| - 1];
      assert source == prefix + name + ")";
    }
    if prefix, name :| source == prefix + name + ")" && Lower(prefix) == "telegram auto (" {
      assert |prefix| == |Lower(prefix)| == |PREFIX|;
      assert source[..|PREFIX|] == prefix;
    }
  }

  /**
   Step 33 on any table, row by row.  The rows that stay are those not named `Telegram Auto (...)`.
   One is unpaused iff some such row unwraps to its name, and keeps its pause otherwise; it is given
   an override iff it had none and its twin has one.
   */
  lemma MergedExactly(rows: Channels)
    ensures var merged := DeleteWrapped(Carry(Unpause(rows)));
            && (forall s :: s in merged <==> s in rows && !IsWrapped(s))
            && forall s :: s in merged ==>
                 var unwrapsTo := exists w :: w in rows && IsWrapped(w) && Unwrap(w) == s;
                 var inherits := rows[s].override == 0 && Wrap(s) in rows && rows[Wrap(s)].override == 1;
                 && merged[s].paused == (if unwrapsTo then 0 else rows[s].paused)
                 && merged[s].override == if inherits then 1 else rows[s].override
  {
  }

  /**
   "The merged channel is not paused" holds of a channel whose twin alone unwraps to its name iff
   the name is plain; a name with a closing bracket keeps its pause whatever other rows there are.
   */
  lemma MergedPause(rows: Channels, source: string)
    requires source in rows && !IsWrapped(source) && Wrap(source) in rows
    ensures var merged := DeleteWrapped(Carry(Unpause(rows)));
            && source in merged && Wrap(source) !in merged
            && (TwinAlone(rows, source)
               ==> merged[source].paused == if PlainName(source) then 0 else rows[source].paused)
            && (PlainName(source) ==> merged[source].paused == 0)
            && (')' in source ==> merged[source].paused == rows[source].paused)
            && (merged[source].override
                == if rows[source].override == 0 && rows[Wrap(source)].override == 1 then 1 else rows[source].override)
  {
    WrapIsWrapped(source);
    WrapRoundTrip(source);
    if ')' in source && source in Targets(rows) {
      var w :| w in rows && IsWrapped(w) && Unwrap(w) == source;
      RemoveChar(Remove(w, PREFIX));
    }
  }

  // No wrapped row but its own twin unwraps to `source`.
  predicate TwinAlone(rows: Channels, source: string) {
    forall w :: w in rows && IsWrapped(w) && w != Wrap(source) ==> Unwrap(w) != source
  }
}
