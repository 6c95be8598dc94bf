/**
 * The `urls` table of the server, held in memory. A row carries the columns of the
 * schema; the table is a sequence of rows in insertion (rowid) order. The schema's
 * rules are kept as the class invariant: `shortCode` is UNIQUE, `clicks` starts at 0,
 * and `id` autoincrements from 1.
 */
module Database {
  import opened Wrappers

  /** One row. `createdAt` is the clock value the caller supplies at insertion. */
  datatype UrlRecord = UrlRecord(id: nat, shortCode: string, originalUrl: string, clicks: nat, createdAt: int)

  /** The codes present in the table. */
  function Codes(rows: seq<UrlRecord>): set<string>
  {
    if rows == [] then {} else {rows[0].shortCode} + Codes(rows[1..])
  }

  /** Some row carries the code. */
  predicate HasCode(rows: seq<UrlRecord>, code: string)
  {
    code in Codes(rows)
  }

  lemma {:induction false} HasCodeAt(rows: seq<UrlRecord>, code: string)
    ensures HasCode(rows, code) <==> exists i :: 0 <= i < |rows| && rows[i].shortCode == code
  {
    if rows != [] {
      HasCodeAt(rows[1..], code);
      if HasCode(rows[1..], code) {
        var i :| 0 <= i < |rows| - 1 && rows[1..][i].shortCode == code;
        assert rows[i + 1].shortCode == code;
      }
      if exists i :: 0 <= i < |rows| && rows[i].shortCode == code {
        var i :| 0 <= i < |rows| && rows[i].shortCode == code;
        if i > 0 { assert rows[1..][i - 1].shortCode == code; }
      }
    }
  }

  /** The UNIQUE constraint on `shortCode`: no row's code recurs further down the table. */
  predicate UniqueCodes(rows: seq<UrlRecord>)
  {
    rows == [] || (rows[0].shortCode !in Codes(rows[1..]) && UniqueCodes(rows[1..]))
  }

  /** Under the UNIQUE constraint no two rows share a code. */
  lemma {:induction false} UniqueCodesPairwise(rows: seq<UrlRecord>, i: nat, j: nat)
    requires UniqueCodes(rows)
    requires i < |rows| && j < |rows| && i != j
    ensures rows[i].shortCode != rows[j].shortCode
  {
    if i == 0 {
      HasCodeAt(rows[1..], rows[j].shortCode);
      assert rows[1..][j - 1] == rows[j];
    } else if j == 0 {
      HasCodeAt(rows[1..], rows[i].shortCode);
      assert rows[1..][i - 1] == rows[i];
    } else {
      UniqueCodesPairwise(rows[1..], i - 1, j - 1);
    }
  }

  /** `INSERT` of a code not yet present keeps the constraint and adds exactly that code. */
  lemma {:induction false} UniqueCodesAppend(rows: seq<UrlRecord>, r: UrlRecord)
    requires UniqueCodes(rows) && r.shortCode !in Codes(rows)
    ensures UniqueCodes(rows + [r])
    ensures Codes(rows + [r]) == Codes(rows) + {r.shortCode}
  {
    if rows != [] {
      assert (rows + [r])[1..] == rows[1..] + [r];
      UniqueCodesAppend(rows[1..], r);
    } else {
      assert (rows + [r])[1..] == [];
    }
  }

  /** AUTOINCREMENT without deletions: the rows are numbered `first`, `first + 1`, ... */
  predicate IdsFrom(rows: seq<UrlRecord>, first: nat)
  {
    rows == [] || (rows[0].id == first && IdsFrom(rows[1..], first + 1))
  }

  lemma {:induction false} IdsFromAt(rows: seq<UrlRecord>, first: nat, i: nat)
    requires IdsFrom(rows, first) && i < |rows|
    ensures rows[i].id == first + i
  {
    if i > 0 {
      IdsFromAt(rows[1..], first + 1, i - 1);
    }
  }

  lemma {:induction false} IdsFromAppend(rows: seq<UrlRecord>, first: nat, r: UrlRecord)
    requires IdsFrom(rows, first) && r.id == first + |rows|
    ensures IdsFrom(rows + [r], first)
  {
    if rows != [] {
      assert (rows + [r])[1..] == rows[1..] + [r];
      IdsFromAppend(rows[1..], first + 1, r);
    } else {
      assert (rows + [r])[1..] == [];
    }
  }

  /** `SELECT * FROM urls WHERE shortCode = ?` */
  function FindByCode(rows: seq<UrlRecord>, code: string): (r: Option<UrlRecord>)
    ensures r.Some? <==> HasCode(rows, code)
    ensures r.Some? ==> r.value in rows && r.value.shortCode == code
  {
    if rows == [] then None
    else if rows[0].shortCode == code then Some(rows[0])
    else FindByCode(rows[1..], code)
  }

  /** Under the UNIQUE constraint the row found by code is the one row with that code. */
  lemma {:induction false} FindByCodeIsTheRow(rows: seq<UrlRecord>, code: string, i: nat)
    requires UniqueCodes(rows)
    requires i < |rows| && rows[i].shortCode == code
    ensures FindByCode(rows, code) == Some(rows[i])
  {
    if i > 0 {
      HasCodeAt(rows[1..], code);
      assert rows[1..][i - 1] == rows[i];
      FindByCodeIsTheRow(rows[1..], code, i - 1);
    }
  }

  /** `SELECT * FROM urls WHERE originalUrl = ?`: the first matching row in rowid order. */
  function FindByOriginalUrl(rows: seq<UrlRecord>, url: string): (r: Option<UrlRecord>)
    ensures r.Some? ==> r.value in rows && r.value.originalUrl == url
    ensures r.None? <==> forall i :: 0 <= i < |rows| ==> rows[i].originalUrl != url
  {
    if rows == [] then None
    else if rows[0].originalUrl == url then Some(rows[0])
    else FindByOriginalUrl(rows[1..], url)
  }

  /** A URL stored for the first time is found again by its URL, as the row just added. */
  lemma {:induction false} FindByOriginalUrlAfterAppend(rows: seq<UrlRecord>, r: UrlRecord)
    requires FindByOriginalUrl(rows, r.originalUrl).None?
    ensures FindByOriginalUrl(rows + [r], r.originalUrl) == Some(r)
  {
    if rows != [] {
      assert (rows + [r])[1..] == rows[1..] + [r];
      FindByOriginalUrlAfterAppend(rows[1..], r);
    }
  }

  /** `UPDATE urls SET clicks = clicks + 1 WHERE shortCode = ?` */
  function Incremented(rows: seq<UrlRecord>, code: string): (r: seq<UrlRecord>)
    ensures |r| == |rows|
    ensures forall i :: 0 <= i < |rows| ==>
      r[i] == if rows[i].shortCode == code then rows[i].(clicks := rows[i].clicks + 1) else rows[i]
    ensures !HasCode(rows, code) ==> r == rows
  {
    if rows == [] then []
    else
      var head := if rows[0].shortCode == code then rows[0].(clicks := rows[0].clicks + 1) else rows[0];
      [head] + Incremented(rows[1..], code)
  }

  /** An increment changes no code or id, so the schema's rules survive it. */
  lemma {:induction false} IncrementedKeepsSchema(rows: seq<UrlRecord>, code: string, first: nat)
    ensures Codes(Incremented(rows, code)) == Codes(rows)
    ensures UniqueCodes(rows) ==> UniqueCodes(Incremented(rows, code))
    ensures IdsFrom(rows, first) ==> IdsFrom(Incremented(rows, code), first)
  {
    if rows != [] {
      IncrementedKeepsSchema(rows[1..], code, first + 1);
      assert Incremented(rows, code)[1..] == Incremented(rows[1..], code);
    }
  }

  /** Under the UNIQUE constraint the increment reaches exactly one row. */
  lemma {:induction false} IncrementedTouchesOneRow(rows: seq<UrlRecord>, code: string, i: nat)
    requires UniqueCodes(rows)
    requires i < |rows| && rows[i].shortCode == code
    ensures Incremented(rows, code)[i].clicks == rows[i].clicks + 1
    ensures forall j :: 0 <= j < |rows| && j != i ==> Incremented(rows, code)[j] == rows[j]
  {
    forall j | 0 <= j < |rows| && j != i
      ensures Incremented(rows, code)[j] == rows[j]
    {
      UniqueCodesPairwise(rows, i, j);
    }
  }

  /** `n` increments of one code. */
  function IncrementedTimes(rows: seq<UrlRecord>, code: string, n: nat): (r: seq<UrlRecord>)
    ensures |r| == |rows|
  {
    if n == 0 then rows else Incremented(IncrementedTimes(rows, code, n - 1), code)
  }

  /** `n` increments of one code raise its row's counter by exactly `n` and keep the rest of
      the row. */
  lemma {:induction false} ClicksAfterIncrements(rows: seq<UrlRecord>, code: string, n: nat, i: nat)
    requires i < |rows| && rows[i].shortCode == code
    ensures IncrementedTimes(rows, code, n)[i] == rows[i].(clicks := rows[i].clicks + n)
  {
    var row := rows[i];
    if n == 0 {
      assert row.(clicks := row.clicks + 0) == row;
    } else {
      var before := IncrementedTimes(rows, code, n - 1);
      ClicksAfterIncrements(rows, code, n - 1, i);
      assert before[i] == row.(clicks := row.clicks + (n - 1));
      assert Incremented(before, code)[i] == row.(clicks := row.clicks + n);
    }
  }

  /** The order of `ORDER BY createdAt DESC`. */
  predicate SortedByCreatedDesc(s: seq<UrlRecord>)
  {
    forall i, j :: 0 <= i < j < |s| ==> s[i].createdAt >= s[j].createdAt
  }

  /** A row no older than the head of a sorted listing may go in front of it. */
  lemma SortedCons(h: UrlRecord, s: seq<UrlRecord>)
    requires SortedByCreatedDesc(s)
    requires s != [] ==> h.createdAt >= s[0].createdAt
    ensures SortedByCreatedDesc([h] + s)
  {
    var t := [h] + s;
    forall i, j | 0 <= i < j < |t| ensures t[i].createdAt >= t[j].createdAt {
      if i > 0 {
        assert t[i] == s[i - 1] && t[j] == s[j - 1];
      } else {
        assert t[j] == s[j - 1];
      }
    }
  }

  function InsertByCreated(r: UrlRecord, s: seq<UrlRecord>): (t: seq<UrlRecord>)
    requires SortedByCreatedDesc(s)
    ensures SortedByCreatedDesc(t)
    ensures multiset(t) == multiset(s) + multiset{r}
    ensures t != [] && (t[0] == r || (s != [] && t[0] == s[0]))
  {
    if s == [] || r.createdAt >= s[0].createdAt then
      SortedCons(r, s);
      [r] + s
    else
      assert s == [s[0]] + s[1..];
      var rest := InsertByCreated(r, s[1..]);
      SortedCons(s[0], rest);
      [s[0]] + rest
  }

  /** The listing order: newest first; rows with equal `createdAt` keep rowid order. */
  function OrderByCreatedDesc(s: seq<UrlRecord>): (t: seq<UrlRecord>)
    ensures SortedByCreatedDesc(t)
    ensures multiset(t) == multiset(s)
  {
    if s == [] then []
    else
      assert s == [s[0]] + s[1..];
      InsertByCreated(s[0], OrderByCreatedDesc(s[1..]))
  }

  /** `UrlDatabase`: the table and the AUTOINCREMENT counter. */
  class UrlDatabase {
    var rows: seq<UrlRecord>
    /** The id the next inserted row receives. */
    var nextId: nat

    /** The schema's rules: unique codes, and ids counting up from 1 to just below `nextId`. */
    ghost predicate Valid()
      reads this
    {
      UniqueCodes(rows) && IdsFrom(rows, 1) && nextId == |rows| + 1
    }

    /** `CREATE TABLE IF NOT EXISTS urls`, starting from an empty table. */
    constructor ()
      ensures Valid()
      ensures rows == [] && nextId == 1
    {
      rows := [];
      nextId := 1;
    }

    /** `INSERT INTO urls (shortCode, originalUrl)`: fails on the UNIQUE constraint, otherwise
        appends a row with the next id, zero clicks and the current time. */
    method Create(shortCode: string, originalUrl: string, now: int) returns (ok: bool)
      requires Valid()
      modifies this
      ensures Valid()
      ensures ok <==> !HasCode(old(rows), shortCode)
      ensures ok ==> rows == old(rows) + [UrlRecord(old(nextId), shortCode, originalUrl, 0, now)]
                     && nextId == old(nextId) + 1
      ensures !ok ==> rows == old(rows) && nextId == old(nextId)
    {
      var existing := FindByCode(rows, shortCode);
      if existing.Some? {
        ok := false;
      } else {
        UniqueCodesAppend(rows, UrlRecord(nextId, shortCode, originalUrl, 0, now));
        IdsFromAppend(rows, 1, UrlRecord(nextId, shortCode, originalUrl, 0, now));
        rows := rows + [UrlRecord(nextId, shortCode, originalUrl, 0, now)];
        nextId := nextId + 1;
        ok := true;
      }
    }

    /** `getByShortCode`: the row with that code, or None. */
    method GetByShortCode(shortCode: string) returns (r: Option<UrlRecord>)
      requires Valid()
      ensures r == FindByCode(rows, shortCode)
      ensures r.Some? <==> HasCode(rows, shortCode)
      ensures forall i :: 0 <= i < |rows| && rows[i].shortCode == shortCode ==> r == Some(rows[i])
    {
      r := FindByCode(rows, shortCode);
      forall i | 0 <= i < |rows| && rows[i].shortCode == shortCode
        ensures r == Some(rows[i])
      {
        FindByCodeIsTheRow(rows, shortCode, i);
      }
    }

    /** `getByOriginalUrl`: a row with that URL, or None when there is none. */
    method GetByOriginalUrl(originalUrl: string) returns (r: Option<UrlRecord>)
      requires Valid()
      ensures r.Some? ==> r.value in rows && r.value.originalUrl == originalUrl
      ensures r.None? <==> forall i :: 0 <= i < |rows| ==> rows[i].originalUrl != originalUrl
      ensures r == FindByOriginalUrl(rows, originalUrl)
    {
      r := FindByOriginalUrl(rows, originalUrl);
    }

    /** `incrementClicks`: one more click on the row with that code; a no-op without one. */
    method IncrementClicks(shortCode: string)
      requires Valid()
      modifies this
      ensures Valid()
      ensures rows == Incremented(old(rows), shortCode) && nextId == old(nextId)
    {
      IncrementedKeepsSchema(rows, shortCode, 1);
      rows := Incremented(rows, shortCode);
    }

    /** `getAllUrls`: every row exactly once, newest first. */
    method GetAllUrls() returns (all: seq<UrlRecord>)
      requires Valid()
      ensures multiset(all) == multiset(rows)
      ensures SortedByCreatedDesc(all)
    {
      all := OrderByCreatedDesc(rows);
    }
  }
}
