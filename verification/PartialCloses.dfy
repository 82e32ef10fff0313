/**
 Migration step 30 on `vantage_partial_closes`: one UPDATE relabels every repeated
 take-profit row, then a UNIQUE index on (trade_id, reason) is built over the `TPn` rows.
 Step 32 rebuilds it on (trade_id, reason, lots_closed, close_price).
 */
module PartialCloses {
  datatype Close = Close(trade: string, reason: string, lots: real, price: real, pnl: real)

  // Keyed by the row id, which is the primary key.
  type Closes = map<nat, Close>

  predicate IsDigit(c: char) { '0' <= c <= '9' }

  // `reason GLOB 'TP[0-9]' OR reason GLOB 'TP[0-9][0-9]'`
  predicate IsTp(reason: string) {
    && 3 <= |reason| <= 4
    && reason[..2] == "TP"
    && forall i :: 2 <= i < |reason| ==> IsDigit(reason[i])
  }

  function Decimal(n: nat): string {
    var digit := [('0' as int + n % 10) as char];
    if n < 10 then digit else Decimal(n / 10) + digit
  }

  predicate Digits(s: string) { forall i :: 0 <= i < |s| ==> IsDigit(s[i]) }

  // The number a decimal text stands for.
  function Number(s: string): nat
    requires Digits(s)
  {
    if s == "" then 0
    else
      assert IsDigit(s[|s| - 1]);
      Number(s[..|s| - 1]) * 10 + (s[|s| - 1] as int - '0' as int)
  }

  /** CAST(id AS TEXT) is the decimal text of the id, so different ids give different texts. */
  lemma {:induction false} DecimalRoundTrip(n: nat)
    ensures Digits(Decimal(n))
    ensures Number(Decimal(n)) == n && Decimal(n) != ""
  {
    if n >= 10 {
      DecimalRoundTrip(n / 10);
      assert Decimal(n)[..|Decimal(n)| - 1] == Decimal(n / 10);
    } else {
      assert Decimal(n)[..0] == "";
    }
  }

  /** The two GLOBs: TP and one or two digits. */
  lemma IsTpExactly(reason: string)
    ensures IsTp(reason) <==>
            || (exists c :: IsDigit(c) && reason == "TP" + [c])
            || (exists c, d :: IsDigit(c) && IsDigit(d) && reason == "TP" + [c, d])
  {
    if IsTp(reason) {
      assert reason == reason[..2] + reason[2..];
      if |reason| == 3 {
        assert reason[2..] == [reason[2]];
      } else {
        assert reason[2..] == [reason[2], reason[3]];
      }
    }
  }

  /** A relabelled row: its label, then "_dup" and its own id, and nothing else changed. */
  lemma RelabelExactly(rows: Closes, id: nat)
    requires id in rows && Repeats(rows, id)
    ensures var row, after := rows[id], Relabelled(rows)[id];
            && after.trade == row.trade && after.lots == row.lots && after.price == row.price && after.pnl == row.pnl
            && row.reason + "_dup" <= after.reason
            && var suffix := after.reason[|row.reason| + 4..];
               Digits(suffix) && Number(suffix) == id
  {
    DecimalRoundTrip(id);
    var row, after := rows[id], Relabelled(rows)[id];
    assert after.reason == (row.reason + "_dup") + Decimal(id);
    assert after.reason[|row.reason| + 4..] == Decimal(id);
  }

  function Relabel(id: nat, row: Close): Close {
    row.(reason := row.reason + "_dup" + Decimal(id))
  }

  // The UPDATE's WHERE clause for row `id`, read from table `rows`.
  predicate Repeats(rows: Closes, id: nat) {
    && id in rows
    && IsTp(rows[id].reason)
    && exists earlier :: earlier in rows && earlier < id
                         && rows[earlier].trade == rows[id].trade && rows[earlier].reason == rows[id].reason
  }

  /** The table the UPDATE promises. */
  function Relabelled(rows: Closes): Closes {
    RelabelAt(rows, set id | id in rows && Repeats(rows, id))
  }

  function RelabelAt(rows: Closes, due: set<nat>): Closes {
    map id | id in rows :: if id in due then Relabel(id, rows[id]) else rows[id]
  }

  predicate UniqueTps(rows: Closes, wide: bool) {
    forall a, b :: a in rows && b in rows && a < b && IsTp(rows[a].reason) ==> !SameKey(rows[a], rows[b], wide)
  }

  predicate SameKey(a: Close, b: Close, wide: bool) {
    && a.trade == b.trade && a.reason == b.reason
    && (wide ==> a.lots == b.lots && a.price == b.price)
  }

  /** What the two indexes refuse: two take-profit rows alike in all the index's columns. */
  lemma UniqueExactly(rows: Closes)
    ensures UniqueTps(rows, false) <==>
            !exists a, b :: a in rows && b in rows && a < b && IsTp(rows[a].reason)
                            && rows[a].trade == rows[b].trade && rows[a].reason == rows[b].reason
    ensures UniqueTps(rows, true) <==>
            !exists a, b :: a in rows && b in rows && a < b && IsTp(rows[a].reason)
                            && rows[a].trade == rows[b].trade && rows[a].reason == rows[b].reason
                            && rows[a].lots == rows[b].lots && rows[a].price == rows[b].price
  {
  }

  /** Row `id` holds its (trade, reason) group's lowest id. */
  ghost predicate Lowest(rows: Closes, id: nat)
    requires id in rows
  {
    forall other :: other in rows && other < id ==>
      !(rows[other].trade == rows[id].trade && rows[other].reason == rows[id].reason)
  }

  /** A table the UPDATE may see half way: any choice of the due rows already relabelled. */
  ghost predicate PartlyUpdated(now: Closes, rows: Closes) {
    && now.Keys == rows.Keys
    && forall id :: id in rows ==> now[id] == rows[id] || (Repeats(rows, id) && now[id] == Relabel(id, rows[id]))
  }

  lemma {:induction false} LowestInGroup(rows: Closes, id: nat) returns (low: nat)
    requires id in rows
    ensures low in rows && low <= id && Lowest(rows, low)
    ensures rows[low].trade == rows[id].trade && rows[low].reason == rows[id].reason
    decreases id
  {
    if Lowest(rows, id) {
      low := id;
    } else {
      var other :| other in rows && other < id
                   && rows[other].trade == rows[id].trade && rows[other].reason == rows[id].reason;
      low := LowestInGroup(rows, other);
    }
  }

  lemma RelabelNotTp(id: nat, row: Close)
    ensures IsTp(row.reason) ==> !IsTp(Relabel(id, row).reason)
  {
  }

  /** However far the UPDATE has got, its test on a row it has not changed gives the original answer. */
  lemma TestIsStable(now: Closes, rows: Closes, id: nat)
    requires PartlyUpdated(now, rows) && id in rows && now[id] == rows[id]
    ensures Repeats(now, id) <==> Repeats(rows, id)
  {
    if Repeats(rows, id) {
      var low := LowestInGroup(rows, id);
      assert now[low] == rows[low];
    }
    if Repeats(now, id) {
      var earlier :| earlier in now && earlier < id
                     && now[earlier].trade == now[id].trade && now[earlier].reason == now[id].reason;
      RelabelNotTp(earlier, rows[earlier]);
      assert now[earlier] == rows[earlier];
    }
  }

  // The table a row's test reads: partly updated, the row itself not yet visited.
  ghost predicate MayBeSeen(table: Closes, rows: Closes, id: nat) {
    id in rows && PartlyUpdated(table, rows) && table[id] == rows[id]
  }

  /**
   The UPDATE.  The test on row `id` reads a table `seen[id]` that is some mixture of old and
   already relabelled rows: the table before the statement, the table as it stands when the row
   is visited, or anything between.  The result depends neither on these mixtures nor on the
   order in which the rows are rewritten.
   */
  method RelabelDuplicates(rows: Closes, seen: map<nat, Closes>) returns (now: Closes)
    requires seen.Keys == rows.Keys && forall id :: id in rows ==> MayBeSeen(seen[id], rows, id)
    ensures now == Relabelled(rows)
  {
    var due := set id | id in rows && Repeats(seen[id], id);
    TestsAgree(rows, seen);
    now := RewriteRows(rows, due);
  }

  lemma TestsAgree(rows: Closes, seen: map<nat, Closes>)
    requires seen.Keys == rows.Keys && forall id :: id in rows ==> MayBeSeen(seen[id], rows, id)
    ensures (set id | id in rows && Repeats(seen[id], id)) == (set id | id in rows && Repeats(rows, id))
  {
    forall id | id in rows
      ensures Repeats(seen[id], id) <==> Repeats(rows, id)
    {
      TestIsStable(seen[id], rows, id);
    }
  }

  /** The UPDATE as one pass in place: rows are visited in any order, each tested on the table so far. */
  method RelabelInPlace(rows: Closes) returns (now: Closes)
    ensures now == Relabelled(rows)
  {
    now := rows;
    var pending := rows.Keys;
    while pending != {}
      invariant pending <= rows.Keys && now.Keys == rows.Keys
      invariant forall id :: id in pending ==> now[id] == rows[id]
      invariant forall id :: id in rows.Keys - pending ==> now[id] == Relabelled(rows)[id]
      decreases |pending|
    {
      var id :| id in pending;
      TestIsStable(now, rows, id);
      if Repeats(now, id) {
        now := now[id := Relabel(id, now[id])];
      }
      pending := pending - {id};
    }
  }

  method RewriteRows(rows: Closes, due: set<nat>) returns (now: Closes)
    requires due <= rows.Keys
    ensures now == RelabelAt(rows, due)
  {
    now := rows;
    var pending := due;
    while pending != {}
      invariant pending <= due && now.Keys == rows.Keys
      invariant forall id :: id in rows ==> now[id] == if id in due - pending then Relabel(id, rows[id]) else rows[id]
      decreases |pending|
    {
      var id :| id in pending;
      now := now[id := Relabel(id, now[id])];
      pending := pending - {id};
    }
  }

  /** No row, lot, price or pnl is lost, and only repeated take-profit rows change their label. */
  lemma NothingLost(rows: Closes, id: nat)
    requires id in rows
    ensures Relabelled(rows).Keys == rows.Keys
    ensures Relabelled(rows)[id].(reason := "") == rows[id].(reason := "")
    ensures Relabelled(rows)[id].reason == rows[id].reason <==> !IsTp(rows[id].reason) || Lowest(rows, id)
  {
  }

  /** Every take-profit label survives on exactly one row of its trade: the group's lowest id. */
  lemma OneSurvivor(rows: Closes, id: nat)
    requires id in rows && IsTp(rows[id].reason)
    ensures exists low :: low in rows && Lowest(rows, low) && Relabelled(rows)[low] == rows[low]
                          && rows[low].trade == rows[id].trade && rows[low].reason == rows[id].reason
    ensures UniqueTps(Relabelled(rows), false)
  {
    var low := LowestInGroup(rows, id);
    RelabelledIsUnique(rows);
  }

  lemma RelabelledIsUnique(rows: Closes)
    ensures UniqueTps(Relabelled(rows), false)
  {
    var after := Relabelled(rows);
    forall a, b | a in after && b in after && a < b && IsTp(after[a].reason)
      ensures !SameKey(after[a], after[b], false)
    {
      RelabelNotTp(a, rows[a]);
      RelabelNotTp(b, rows[b]);
    }
  }

  /** Running the UPDATE again changes nothing. */
  lemma RelabelIdempotent(rows: Closes)
    ensures Relabelled(Relabelled(rows)) == Relabelled(rows)
  {
    RelabelledIsUnique(rows);
  }

  lemma NarrowImpliesWide(rows: Closes)
    requires UniqueTps(rows, false)
    ensures UniqueTps(rows, true)
  {
  }
}
