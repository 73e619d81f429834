/** Revision 020's other half: each campaign's list of accounts becomes positioned rows, and a downgrade regroups
    the rows into lists. */
module CampaignAccounts {
  import opened Wrappers
  import opened Sequences

  datatype Campaign = Campaign(id: nat, accounts: seq<nat>)

  /** A row of the table, whose primary key is the campaign and the account. */
  datatype Row = Row(campaign: nat, account: nat, position: nat)

  datatype Error = MissingAccount(campaign: nat, account: nat) | DuplicateKey(campaign: nat, account: nat)

  function RowsOf(c: Campaign): seq<Row> {
    seq(|c.accounts|, (i: nat) requires i < |c.accounts| => Row(c.id, c.accounts[i], i))
  }

  function AllRows(cs: seq<Campaign>): seq<Row> {
    if cs == [] then [] else AllRows(cs[..|cs| - 1]) + RowsOf(cs[|cs| - 1])
  }

  predicate DistinctIds(cs: seq<Campaign>) {
    forall i, j | 0 <= i < j < |cs| :: cs[i].id != cs[j].id
  }

  predicate KeysDistinct(rows: seq<Row>) {
    forall i, j | 0 <= i < j < |rows| :: rows[i].campaign != rows[j].campaign || rows[i].account != rows[j].account
  }

  predicate AccountsExist(cs: seq<Campaign>, valid: set<nat>) {
    forall c <- cs :: forall a <- c.accounts :: a in valid
  }

  // ---------------------------------------------------------------- upgrade

  method CollectRows(cs: seq<Campaign>, valid: set<nat>) returns (r: Result<seq<Row>, Error>)
    ensures r.Success? <==> AccountsExist(cs, valid)
    ensures r.Success? ==> r.value == AllRows(cs)
    ensures r.Failure? ==> r.error.MissingAccount? && r.error.account !in valid &&
                           exists c :: c in cs && c.id == r.error.campaign && r.error.account in c.accounts
  {
    var rows := [];
    for i := 0 to |cs|
      invariant rows == AllRows(cs[..i])
      invariant AccountsExist(cs[..i], valid)
    {
      var c := cs[i];
      var before := rows;
      for position := 0 to |c.accounts|
        invariant rows == before + RowsOf(c)[..position]
        invariant forall a <- c.accounts[..position] :: a in valid
      {
        if c.accounts[position] !in valid {
          assert c in cs && c.accounts[position] in c.accounts;
          return Failure(MissingAccount(c.id, c.accounts[position]));
        }
        rows := rows + [Row(c.id, c.accounts[position], position)];
      }
      assert c.accounts[..|c.accounts|] == c.accounts && RowsOf(c)[..|c.accounts|] == RowsOf(c);
      assert cs[..i + 1][..i] == cs[..i];
    }
    assert cs[..|cs|] == cs;
    return Success(rows);
  }

  /** The table after the inserts, or the row whose key is already there. */
  method InsertRows(rows: seq<Row>) returns (r: Result<set<Row>, Error>)
    ensures r.Success? <==> KeysDistinct(rows)
    ensures r.Success? ==> r.value == set row <- rows
    ensures r.Failure? ==> r.error.DuplicateKey?
  {
    var table := {};
    for i := 0 to |rows|
      invariant table == set row <- rows[..i]
      invariant KeysDistinct(rows[..i])
    {
      var taken := exists row :: row in table && row.campaign == rows[i].campaign && row.account == rows[i].account;
      if taken {
        var row :| row in table && row.campaign == rows[i].campaign && row.account == rows[i].account;
        ghost var j :| 0 <= j < i && rows[j] == row;
        return Failure(DuplicateKey(rows[i].campaign, rows[i].account));
      }
      assert forall j | 0 <= j < i :: rows[j] in table;
      assert rows[..i + 1] == rows[..i] + [rows[i]];
      table := table + {rows[i]};
    }
    assert rows[..|rows|] == rows;
    return Success(table);
  }

  /** The upgrade goes through just when every account exists and no campaign lists one twice. */
  method Upgrade(cs: seq<Campaign>, valid: set<nat>) returns (r: Result<set<Row>, Error>)
    requires DistinctIds(cs)
    ensures r.Success? <==> AccountsExist(cs, valid) && forall c <- cs :: NoDup(c.accounts)
    ensures r.Success? ==> r.value == set row <- AllRows(cs)
  {
    var rows := CollectRows(cs, valid);
    if rows.Failure? {
      return Failure(rows.error);
    }
    KeysDistinctIff(cs);
    r := InsertRows(rows.value);
  }

  lemma {:induction false} RowOrigin(cs: seq<Campaign>, row: Row)
    ensures row in AllRows(cs) <==>
            exists c :: c in cs && c.id == row.campaign &&
                        row.position < |c.accounts| && c.accounts[row.position] == row.account
  {
    if cs != [] {
      var earlier, last := cs[..|cs| - 1], cs[|cs| - 1];
      RowOrigin(earlier, row);
      assert cs == earlier + [last];
      if row in RowsOf(last) {
        assert last in cs;
      }
      if c :| c in cs && c.id == row.campaign && row.position < |c.accounts| &&
              c.accounts[row.position] == row.account {
        if c == last {
          assert RowsOf(last)[row.position] == row;
        }
      }
    }
  }

  lemma {:induction false} KeysDistinctIff(cs: seq<Campaign>)
    requires DistinctIds(cs)
    ensures KeysDistinct(AllRows(cs)) <==> forall c <- cs :: NoDup(c.accounts)
  {
    if cs != [] {
      var earlier, last := cs[..|cs| - 1], cs[|cs| - 1];
      KeysDistinctIff(earlier);
      assert cs == earlier + [last];
      var a, b := AllRows(earlier), RowsOf(last);
      forall row <- a
        ensures row.campaign != last.id
      {
        RowOrigin(earlier, row);
      }
      ConcatDistinct(a, b, last.id);
      RowsDistinctIff(last);
    }
  }

  lemma ConcatDistinct(a: seq<Row>, b: seq<Row>, id: nat)
    requires (forall row <- a :: row.campaign != id) && (forall row <- b :: row.campaign == id)
    ensures KeysDistinct(a + b) <==> KeysDistinct(a) && KeysDistinct(b)
  {
    if KeysDistinct(a + b) {
      assert forall i | 0 <= i < |a| :: (a + b)[i] == a[i];
      assert forall i | 0 <= i < |b| :: (a + b)[|a| + i] == b[i];
    }
  }

  lemma RowsDistinctIff(c: Campaign)
    ensures KeysDistinct(RowsOf(c)) <==> NoDup(c.accounts)
  {
    assert forall i | 0 <= i < |c.accounts| :: RowsOf(c)[i].account == c.accounts[i];
  }

  // ---------------------------------------------------------------- downgrade

  /** By campaign, and by position within it. */
  predicate InOrder(rows: seq<Row>) {
    forall i, j | 0 <= i < j < |rows| ::
      || rows[i].campaign < rows[j].campaign
      || (rows[i].campaign == rows[j].campaign && rows[i].position <= rows[j].position)
  }

  /** What the ordered query over the table may return: every row of it once, in order. */
  ghost predicate QueryResult(rows: seq<Row>, table: set<Row>) {
    NoDup(rows) && InOrder(rows) && forall row :: row in rows <==> row in table
  }

  function OfCampaign(rows: seq<Row>, id: nat): seq<Row> {
    if rows == [] then []
    else
      var last := rows[|rows| - 1];
      OfCampaign(rows[..|rows| - 1], id) + (if last.campaign == id then [last] else [])
  }

  function Accounts(rows: seq<Row>): seq<nat> {
    seq(|rows|, (i: nat) requires i < |rows| => rows[i].account)
  }

  /** The regrouped list of a campaign; without rows it keeps the column's default. */
  function Regrouped(byCampaign: map<nat, seq<nat>>, id: nat): seq<nat> {
    if id in byCampaign then byCampaign[id] else []
  }

  method Regroup(rows: seq<Row>) returns (byCampaign: map<nat, seq<nat>>)
    ensures forall id :: Regrouped(byCampaign, id) == Accounts(OfCampaign(rows, id))
  {
    byCampaign := map[];
    for i := 0 to |rows|
      invariant forall id :: Regrouped(byCampaign, id) == Accounts(OfCampaign(rows[..i], id))
    {
      assert rows[..i + 1][..i] == rows[..i];
      var id := rows[i].campaign;
      byCampaign := byCampaign[id := Regrouped(byCampaign, id) + [rows[i].account]];
    }
    assert rows[..|rows|] == rows;
  }

  // ---------------------------------------------------------------- the round trip

  ghost predicate Ascending(rows: seq<Row>) {
    forall i, j | 0 <= i < j < |rows| :: rows[i].position <= rows[j].position
  }

  lemma {:induction false} OfCampaignMembers(rows: seq<Row>, id: nat)
    ensures forall row :: row in OfCampaign(rows, id) <==> row in rows && row.campaign == id
  {
    if rows != [] {
      OfCampaignMembers(rows[..|rows| - 1], id);
      assert rows == rows[..|rows| - 1] + [rows[|rows| - 1]];
    }
  }

  lemma {:induction false} OfCampaignOrder(rows: seq<Row>, id: nat)
    requires NoDup(rows) && InOrder(rows)
    ensures NoDup(OfCampaign(rows, id)) && Ascending(OfCampaign(rows, id))
  {
    if rows != [] {
      var earlier, last := rows[..|rows| - 1], rows[|rows| - 1];
      OfCampaignOrder(earlier, id);
      if last.campaign == id {
        forall row <- OfCampaign(earlier, id)
          ensures row != last && row.position <= last.position
        {
          OfCampaignMembers(earlier, id);
          var i :| 0 <= i < |earlier| && earlier[i] == row;
          assert rows[i] == row;
        }
        assert forall i | 0 <= i < |OfCampaign(earlier, id)| :: OfCampaign(earlier, id)[i] in OfCampaign(earlier, id);
      }
    }
  }

  /** Only one duplicate-free list in order of position has the rows of a list with all positions different. */
  lemma {:induction false} OrderIsUnique(a: seq<Row>, b: seq<Row>)
    requires forall i, j | 0 <= i < j < |a| :: a[i].position < a[j].position
    requires NoDup(b) && Ascending(b)
    requires forall row :: row in a <==> row in b
    ensures a == b
  {
    assert a != [] ==> a[0] in a;
    assert b != [] ==> b[0] in b;
    if a != [] && b != [] {
      assert a[0] in b && b[0] in a;
      assert a[0] == b[0];
      assert a == [a[0]] + a[1..] && b == [b[0]] + b[1..];
      assert a[0] !in a[1..] && b[0] !in b[1..];
      forall row
        ensures row in a[1..] <==> row in b[1..]
      {
        assert row in a <==> row == a[0] || row in a[1..];
        assert row in b <==> row == b[0] || row in b[1..];
      }
      OrderIsUnique(a[1..], b[1..]);
    }
  }

  /** Whatever answer in order the query gives, the downgrade restores every campaign's list, the empty ones
      included. */
  lemma RoundTrip(cs: seq<Campaign>, rows: seq<Row>, c: Campaign)
    requires DistinctIds(cs) && c in cs
    requires QueryResult(rows, (set row <- AllRows(cs)))
    ensures Accounts(OfCampaign(rows, c.id)) == c.accounts
  {
    var mine := OfCampaign(rows, c.id);
    OfCampaignMembers(rows, c.id);
    OfCampaignOrder(rows, c.id);
    forall row
      ensures row in RowsOf(c) <==> row in mine
    {
      RowsOfOne(cs, c, row);
      assert row in AllRows(cs) <==> row in (set x <- AllRows(cs));
    }
    OrderIsUnique(RowsOf(c), mine);
  }

  lemma RowsOfOne(cs: seq<Campaign>, c: Campaign, row: Row)
    requires DistinctIds(cs) && c in cs
    ensures row in RowsOf(c) <==> row in AllRows(cs) && row.campaign == c.id
  {
    RowOrigin(cs, row);
    if row in RowsOf(c) {
      assert RowsOf(c)[row.position] == row;
    }
    if row.campaign == c.id && row.position < |c.accounts| && c.accounts[row.position] == row.account {
      assert RowsOf(c)[row.position] == row;
    }
  }
}
