/**
  The CVE cache: a table of `Cve` rows keyed by their unique `cveId`, with the batch upsert
  that reports inserts and updates and the newest-first bounded read.
 */
module Storage {
  import opened Schema

  /** The ids a batch mentions. */
  function Ids(items: seq<Cve>): set<string> {
    set i | 0 <= i < |items| :: items[i].cveId
  }

  lemma IdsSnoc(items: seq<Cve>, x: Cve)
    ensures Ids(items + [x]) == Ids(items) + {x.cveId}
  {
    var s := items + [x];
    forall id | id in Ids(s) ensures id in Ids(items) + {x.cveId} {
      var i :| 0 <= i < |s| && s[i].cveId == id;
      if i < |items| { assert items[i] == s[i]; }
    }
    forall id | id in Ids(items) ensures id in Ids(s) {
      var i :| 0 <= i < |items| && items[i].cveId == id;
      assert s[i] == items[i];
    }
    assert s[|items|] == x;
  }

  /** The last row of the batch with the given id. */
  function LastWith(items: seq<Cve>, id: string): (r: Cve)
    requires id in Ids(items)
    ensures r.cveId == id && r in items
  {
    var n := |items|;
    if items[n - 1].cveId == id then items[n - 1]
    else
      assert items == items[..n - 1] + [items[n - 1]];
      IdsSnoc(items[..n - 1], items[n - 1]);
      LastWith(items[..n - 1], id)
  }

  /** The first row of the batch with the given id: the one a plain insert of the batch
      stores for an id that was not there before. */
  function FirstWith(items: seq<Cve>, id: string): (r: Cve)
    requires id in Ids(items)
    ensures r.cveId == id && r in items
  {
    var n := |items|;
    IdsSnoc(items[..n - 1], items[n - 1]);
    assert items[..n - 1] + [items[n - 1]] == items;
    if id in Ids(items[..n - 1]) then FirstWith(items[..n - 1], id) else items[n - 1]
  }

  /** A row that no earlier row of the batch shares an id with is the one that is inserted. */
  lemma {:induction false} FirstWithIsFirst(items: seq<Cve>, i: nat)
    requires i < |items|
    requires forall j | 0 <= j < i :: items[j].cveId != items[i].cveId
    ensures items[i].cveId in Ids(items) && FirstWith(items, items[i].cveId) == items[i]
    decreases |items|
  {
    var n := |items|;
    var id := items[i].cveId;
    if i < n - 1 {
      assert items[..n - 1][i] == items[i];
      FirstWithIsFirst(items[..n - 1], i);
    } else {
      var prefix := items[..n - 1];
      forall k | 0 <= k < |prefix| ensures prefix[k].cveId != id {
        assert prefix[k] == items[k];
      }
      assert id !in Ids(prefix);
    }
  }

  /** A row that no later row of the batch shares an id with is the one that wins. */
  lemma {:induction false} LastWithIsLast(items: seq<Cve>, i: nat)
    requires i < |items|
    requires forall j | i < j < |items| :: items[j].cveId != items[i].cveId
    ensures items[i].cveId in Ids(items) && LastWith(items, items[i].cveId) == items[i]
    decreases |items|
  {
    var n := |items|;
    if i < n - 1 {
      assert items == items[..n - 1] + [items[n - 1]];
      IdsSnoc(items[..n - 1], items[n - 1]);
      LastWithIsLast(items[..n - 1], i);
    }
  }

  /** The table after upserting a batch: each batch id holds the batch's last row for it,
      every other row is kept, nothing is deleted. */
  function Upserted(rows: map<string, Cve>, items: seq<Cve>): (r: map<string, Cve>)
    ensures r.Keys == rows.Keys + Ids(items)
  {
    map id | id in rows.Keys + Ids(items) :: if id in Ids(items) then LastWith(items, id) else rows[id]
  }

  /** Every row is stored under its own `cveId`: the table holds at most one row per id. */
  predicate KeyedById(rows: map<string, Cve>) {
    forall id | id in rows :: rows[id].cveId == id
  }

  /** How many batch rows have an id outside `existing`; repeated rows each count. */
  function CountNew(items: seq<Cve>, existing: set<string>): (n: nat)
    ensures n <= |items|
  {
    if items == [] then 0
    else CountNew(items[..|items| - 1], existing) + (if items[|items| - 1].cveId in existing then 0 else 1)
  }

  lemma UpsertedSnoc(rows: map<string, Cve>, items: seq<Cve>, x: Cve)
    ensures Upserted(rows, items + [x]) == Upserted(rows, items)[x.cveId := x]
  {
    var s := items + [x];
    IdsSnoc(items, x);
    assert s[..|s| - 1] == items;
    var lhs := Upserted(rows, s);
    var rhs := Upserted(rows, items)[x.cveId := x];
    forall id | id in lhs ensures lhs[id] == rhs[id] {
      if id != x.cveId && id in Ids(items) {
        assert LastWith(s, id) == LastWith(items, id);
      }
    }
  }

  lemma {:induction false} CountNewSame(items: seq<Cve>, a: set<string>, b: set<string>)
    requires forall i | 0 <= i < |items| :: items[i].cveId in a <==> items[i].cveId in b
    ensures CountNew(items, a) == CountNew(items, b)
    decreases |items|
  {
    if items != [] {
      CountNewSame(items[..|items| - 1], a, b);
    }
  }

  /** Rows whose id is already present never count as inserted. */
  lemma {:induction false} CountNewAllPresent(items: seq<Cve>, existing: set<string>)
    requires Ids(items) <= existing
    ensures CountNew(items, existing) == 0
    decreases |items|
  {
    if items != [] {
      var n := |items|;
      assert items == items[..n - 1] + [items[n - 1]];
      IdsSnoc(items[..n - 1], items[n - 1]);
      CountNewAllPresent(items[..n - 1], existing);
    }
  }

  /** Into a table that holds none of the batch ids, every batch row counts as inserted,
      repeats included. */
  lemma {:induction false} CountNewNonePresent(items: seq<Cve>, existing: set<string>)
    requires Ids(items) !! existing
    ensures CountNew(items, existing) == |items|
    decreases |items|
  {
    if items != [] {
      var n := |items|;
      assert items == items[..n - 1] + [items[n - 1]];
      IdsSnoc(items[..n - 1], items[n - 1]);
      CountNewNonePresent(items[..n - 1], existing);
    }
  }

  /** Upserting keeps every row under its own id. */
  lemma UpsertedKeyedById(rows: map<string, Cve>, items: seq<Cve>)
    requires KeyedById(rows)
    ensures KeyedById(Upserted(rows, items))
  {
  }

  /** Rows outside the batch are untouched; batch ids hold the last batch row, with no
      field of the old row surviving. */
  lemma UpsertedFrame(rows: map<string, Cve>, items: seq<Cve>, id: string)
    ensures id in rows && id !in Ids(items) ==> id in Upserted(rows, items) && Upserted(rows, items)[id] == rows[id]
    ensures id in Ids(items) ==> id in Upserted(rows, items) && Upserted(rows, items)[id] == LastWith(items, id)
  {
  }

  /** Upserting the same batch again changes nothing and reports no inserts, so every row
      counts as updated. */
  lemma UpsertTwice(rows: map<string, Cve>, items: seq<Cve>)
    ensures Upserted(Upserted(rows, items), items) == Upserted(rows, items)
    ensures CountNew(items, Upserted(rows, items).Keys) == 0
  {
    CountNewAllPresent(items, Upserted(rows, items).Keys);
  }

  /** A batch naming the same new id twice counts two inserts. */
  lemma RepeatedNewIdCountsTwice(row: Cve)
    ensures CountNew([row, row], {}) == 2
  {
    assert [row, row][..1] == [row];
  }

  /** `rows` is a newest-first page of at most `limit` rows of `table`: it has
      `min(limit, |table|)` distinct rows, all from the table, ordered by `publishedAt`
      non-increasing, and no row left out is newer than any row returned. */
  predicate IsLatest(rows: seq<Cve>, table: map<string, Cve>, limit: nat) {
    && |rows| == (if limit < |table| then limit else |table|)
    && (forall i | 0 <= i < |rows| :: rows[i].cveId in table && table[rows[i].cveId] == rows[i])
    && (forall i, j | 0 <= i < j < |rows| :: rows[i].cveId != rows[j].cveId)
    && (forall i, j | 0 <= i < j < |rows| :: rows[i].publishedAt >= rows[j].publishedAt)
    && (forall id, i | id in table && id !in Ids(rows) && 0 <= i < |rows| :: table[id].publishedAt <= rows[i].publishedAt)
  }

  /** The loop state of the newest-first read: `page` holds the rows already taken, newest
      first, and `remaining` the ids not taken yet, none newer than a taken row. */
  predicate PageSoFar(page: seq<Cve>, remaining: set<string>, table: map<string, Cve>) {
    && remaining <= table.Keys
    && Ids(page) == table.Keys - remaining
    && |remaining| + |page| == |table|
    && (forall i | 0 <= i < |page| :: page[i].cveId in table && table[page[i].cveId] == page[i])
    && (forall i, j | 0 <= i < j < |page| :: page[i].cveId != page[j].cveId)
    && (forall i, j | 0 <= i < j < |page| :: page[i].publishedAt >= page[j].publishedAt)
    && (forall id, i | id in remaining && 0 <= i < |page| :: table[id].publishedAt <= page[i].publishedAt)
  }

  lemma PageStep(page: seq<Cve>, remaining: set<string>, table: map<string, Cve>, next: string)
    requires KeyedById(table) && PageSoFar(page, remaining, table)
    requires next in remaining
    requires forall id | id in remaining :: table[id].publishedAt <= table[next].publishedAt
    ensures PageSoFar(page + [table[next]], remaining - {next}, table)
  {
    PageStepIds(page, remaining, table, next);
    PageStepRows(page, remaining, table, next);
  }

  /** Taking `next` moves its id from `remaining` to the page. */
  lemma PageStepIds(page: seq<Cve>, remaining: set<string>, table: map<string, Cve>, next: string)
    requires KeyedById(table) && PageSoFar(page, remaining, table)
    requires next in remaining
    ensures Ids(page + [table[next]]) == table.Keys - (remaining - {next})
    ensures |remaining - {next}| + |page + [table[next]]| == |table|
  {
    IdsSnoc(page, table[next]);
  }

  /** Taking the newest remaining row keeps the page's rows from the table, distinct and
      newest first, and none of the rest newer than them. */
  lemma PageStepRows(page: seq<Cve>, remaining: set<string>, table: map<string, Cve>, next: string)
    requires KeyedById(table) && PageSoFar(page, remaining, table)
    requires next in remaining
    requires forall id | id in remaining :: table[id].publishedAt <= table[next].publishedAt
    ensures var page' := page + [table[next]];
      && (forall i | 0 <= i < |page'| :: page'[i].cveId in table && table[page'[i].cveId] == page'[i])
      && (forall i, j | 0 <= i < j < |page'| :: page'[i].cveId != page'[j].cveId)
      && (forall i, j | 0 <= i < j < |page'| :: page'[i].publishedAt >= page'[j].publishedAt)
      && (forall id, i | id in remaining - {next} && 0 <= i < |page'| :: table[id].publishedAt <= page'[i].publishedAt)
  {
    var page', remaining' := page + [table[next]], remaining - {next};
    forall i | 0 <= i < |page'|
      ensures page'[i].cveId in table && table[page'[i].cveId] == page'[i]
    {
      if i < |page| { assert page'[i] == page[i]; }
    }
    forall i, j | 0 <= i < j < |page'|
      ensures page'[i].cveId != page'[j].cveId && page'[i].publishedAt >= page'[j].publishedAt
    {
      assert page'[i] == page[i];
      if j == |page| {
        assert page[i].cveId in Ids(page);
      } else {
        assert page'[j] == page[j];
      }
    }
    forall id, i | id in remaining' && 0 <= i < |page'|
      ensures table[id].publishedAt <= page'[i].publishedAt
    {
      if i < |page| { assert page'[i] == page[i]; }
    }
  }

  lemma PageDone(page: seq<Cve>, remaining: set<string>, table: map<string, Cve>, limit: nat)
    requires PageSoFar(page, remaining, table)
    requires |page| >= limit || remaining == {}
    requires |page| <= limit
    ensures IsLatest(page, table, limit)
  {
  }

  lemma UpsertedAfterInsert(before: map<string, Cve>, afterInsert: map<string, Cve>, items: seq<Cve>)
    requires afterInsert.Keys == before.Keys + Ids(items)
    requires forall id | id in before :: afterInsert[id] == before[id]
    ensures Upserted(afterInsert, items) == Upserted(before, items)
  {
  }

  /** The `DatabaseStorage` singleton's `cves` table. */
  class DatabaseStorage {
    var cves: map<string, Cve>

    ghost predicate Valid()
      reads this
    {
      KeyedById(cves)
    }

    /** The model's store starts with an empty table. `new DatabaseStorage()` in the source
        holds no state of its own and reads a persistent table, which may already hold rows;
        the handlers' contracts therefore hold for any valid store, not only a fresh one. */
    constructor ()
      ensures Valid() && cves == map[]
    {
      cves := map[];
    }

    /** The id of a newest row among `keys`. */
    method NewestOf(keys: set<string>) returns (newest: string)
      requires keys != {} && keys <= cves.Keys
      ensures newest in keys
      ensures forall id | id in keys :: cves[id].publishedAt <= cves[newest].publishedAt
    {
      newest :| newest in keys;
      var rest := keys - {newest};
      while rest != {}
        invariant rest <= keys && newest in keys
        invariant forall id | id in keys - rest :: cves[id].publishedAt <= cves[newest].publishedAt
        decreases rest
      {
        var id :| id in rest;
        if cves[id].publishedAt > cves[newest].publishedAt {
          newest := id;
        }
        rest := rest - {id};
      }
    }

    /** `getLatestCves(limit)`: `ORDER BY published_at DESC LIMIT limit`; reads only. */
    method GetLatestCves(limit: nat) returns (latest: seq<Cve>)
      requires Valid()
      ensures IsLatest(latest, cves, limit)
    {
      latest := [];
      var remaining := cves.Keys;
      assert |remaining| == |cves|;
      while |latest| < limit && remaining != {}
        invariant |latest| <= limit
        invariant PageSoFar(latest, remaining, cves)
        decreases remaining
      {
        var next := NewestOf(remaining);
        PageStep(latest, remaining, cves, next);
        latest := latest + [cves[next]];
        remaining := remaining - {next};
      }
      PageDone(latest, remaining, cves, limit);
    }

    /** The existence check and the insert count: batch rows whose id is not stored yet,
        repeats included. */
    method CountInserted(items: seq<Cve>) returns (inserted: nat)
      ensures inserted == CountNew(items, cves.Keys)
    {
      var existing := set id | id in cves.Keys && id in Ids(items);
      inserted := 0;
      for i := 0 to |items|
        invariant inserted == CountNew(items[..i], existing)
      {
        assert items[..i + 1][..i] == items[..i];
        if items[i].cveId !in existing {
          inserted := inserted + 1;
        }
      }
      assert items[..|items|] == items;
      CountNewSame(items, existing, cves.Keys);
    }

    /** `INSERT ... ON CONFLICT (cve_id) DO UPDATE` setting each column to its own value:
        new ids are added, stored rows keep their columns. */
    method BulkInsert(items: seq<Cve>)
      requires Valid()
      modifies this
      ensures Valid()
      ensures cves.Keys == old(cves).Keys + Ids(items)
      ensures forall id | id in old(cves) :: cves[id] == old(cves)[id]
      ensures forall id | id in cves && id !in old(cves) :: id in Ids(items) && cves[id] == FirstWith(items, id)
    {
      for i := 0 to |items|
        invariant Valid()
        invariant cves.Keys == old(cves).Keys + Ids(items[..i])
        invariant forall id | id in old(cves) :: id in cves && cves[id] == old(cves)[id]
        invariant forall id | id in cves && id !in old(cves) :: id in Ids(items[..i]) && cves[id] == FirstWith(items[..i], id)
      {
        assert items[..i + 1] == items[..i] + [items[i]];
        assert items[..i + 1][..i] == items[..i];
        IdsSnoc(items[..i], items[i]);
        if items[i].cveId !in cves {
          cves := cves[items[i].cveId := items[i]];
        }
      }
      assert items[..|items|] == items;
    }

    /** `UPDATE cves SET ... WHERE cve_id = item.cveId` for each row in turn: every column
        takes the incoming value. */
    method UpdateEach(items: seq<Cve>)
      requires Ids(items) <= cves.Keys
      modifies this
      ensures cves == Upserted(old(cves), items)
    {
      assert Upserted(cves, items[..0]) == cves;
      for i := 0 to |items|
        invariant cves == Upserted(old(cves), items[..i])
      {
        assert items[..i + 1] == items[..i] + [items[i]];
        UpsertedSnoc(old(cves), items[..i], items[i]);
        assert items[i].cveId in Ids(items);
        if items[i].cveId in cves {
          cves := cves[items[i].cveId := items[i]];
        }
      }
      assert items[..|items|] == items;
    }

    /** `upsertCves(items)`: an empty batch touches nothing; otherwise the counts come from
        the stored ids before any write, then the bulk insert and the per-row update. */
    method UpsertCves(items: seq<Cve>) returns (inserted: nat, updated: nat)
      requires Valid()
      modifies this
      ensures Valid()
      ensures inserted == CountNew(items, old(cves).Keys)
      ensures updated == |items| - inserted
      ensures cves == Upserted(old(cves), items)
    {
      if |items| == 0 {
        assert Upserted(cves, items) == cves;
        return 0, 0;
      }
      inserted := CountInserted(items);
      updated := |items| - inserted;
      ghost var before := cves;
      BulkInsert(items);
      ghost var afterInsert := cves;
      UpdateEach(items);
      UpsertedAfterInsert(before, afterInsert, items);
      UpsertedKeyedById(before, items);
    }
  }
}
