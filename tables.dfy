/** The two job tables and the statement both writers send to them:
    `INSERT ... VALUES (...) ON DUPLICATE KEY UPDATE <every non-key column>`
    (src/index.js:113-128 and 185-204). A table is a map from the primary key
    to the stored row. */
module Tables {
  import opened Js

  /** A table as the writer sees it: the INSERT's column list, in order (the
      first column is the primary key), and the columns the DDL declares
      NOT NULL. */
  datatype Schema = Schema(columns: seq<string>, notNull: set<string>)

  /** `job_listings`: every column is NOT NULL. */
  const JobListings: Schema :=
    Schema(["id", "url", "jobSlug", "jobTitle", "companyName", "companyLogo", "jobIndustry",
            "jobType", "jobGeo", "jobLevel", "jobExcerpt", "jobDescription", "pubDate"],
           {"id", "url", "jobSlug", "jobTitle", "companyName", "companyLogo", "jobIndustry",
            "jobType", "jobGeo", "jobLevel", "jobExcerpt", "jobDescription", "pubDate"})

  /** `job_listings_two`: only `id` and `title` are NOT NULL. */
  const JobListingsTwo: Schema :=
    Schema(["id", "title", "description", "company_name", "category_label", "category_tag",
            "location_display_name", "location_area", "redirect_url", "salary_min", "salary_max",
            "salary_is_predicted", "latitude", "longitude", "created", "adref"],
           {"id", "title"})

  /** In `job_listings_two` only the first two columns are NOT NULL. */
  lemma NullableColumnsTwo()
    ensures JobListingsTwo.columns[0] in JobListingsTwo.notNull
    ensures JobListingsTwo.columns[1] in JobListingsTwo.notNull
    ensures forall i :: 2 <= i < |JobListingsTwo.columns| ==> JobListingsTwo.columns[i] !in JobListingsTwo.notNull
  {
  }

  /** A stored row: the values of the INSERT's columns, and `is_processed`,
      which the INSERT does not list (DEFAULT 0) and the UPDATE leaves alone. */
  datatype Stored = Stored(cols: seq<Value>, isProcessed: int)

  /** Whether a value array can be written at all: one value per column, no
      `undefined` binding (the driver refuses those), and no NULL in a
      NOT NULL column (the server refuses those). */
  predicate Accepts(schema: Schema, values: seq<Value>)
    ensures Accepts(schema, values) && |values| > 0 && |schema.columns| > 0 && schema.columns[0] in schema.notNull ==>
      !values[0].IsNullish()
  {
    && |values| == |schema.columns|
    && (forall i :: 0 <= i < |values| ==> !values[i].Undefined?)
    && (forall i :: 0 <= i < |values| && schema.columns[i] in schema.notNull ==> !values[i].Null?)
  }

  /** Every stored row is one the table accepts, filed under its own key. */
  ghost predicate Consistent(schema: Schema, rows: map<Value, Stored>) {
    forall k :: k in rows ==> Accepts(schema, rows[k].cols) && |rows[k].cols| > 0 && rows[k].cols[0] == k
  }

  /** The table after one successful upsert of `values`, keyed by `values[0]`:
      an absent key gets a new row with `is_processed` 0; a present key keeps
      its `is_processed` and has every listed column replaced; no other row
      changes. */
  function Upserted(rows: map<Value, Stored>, values: seq<Value>): (r: map<Value, Stored>)
    requires |values| > 0
    ensures r.Keys == rows.Keys + {values[0]}
    ensures r[values[0]].cols == values
    ensures r[values[0]].isProcessed == if values[0] in rows then rows[values[0]].isProcessed else 0
    ensures forall k :: k in rows && k != values[0] ==> r[k] == rows[k]
  {
    var key := values[0];
    if key in rows then rows[key := Stored(values, rows[key].isProcessed)]
    else rows[key := Stored(values, 0)]
  }

  predicate NonEmptyRows(ws: seq<seq<Value>>) {
    forall i :: 0 <= i < |ws| ==> |ws[i]| > 0
  }

  /** The table after the upserts `ws`, one at a time, in order. */
  function ApplyAll(rows: map<Value, Stored>, ws: seq<seq<Value>>): map<Value, Stored>
    requires NonEmptyRows(ws)
  {
    if ws == [] then rows else Upserted(ApplyAll(rows, ws[..|ws| - 1]), ws[|ws| - 1])
  }

  /** The last of the upserts `ws` that is keyed by `k`, if any. */
  function LastWrite(ws: seq<seq<Value>>, k: Value): (r: Option<seq<Value>>)
    requires NonEmptyRows(ws)
    ensures r.Some? ==> r.value in ws && r.value[0] == k
  {
    if ws == [] then None
    else if ws[|ws| - 1][0] == k then Some(ws[|ws| - 1])
    else LastWrite(ws[..|ws| - 1], k)
  }

  // ---------------------------------------------------------------------
  // Properties of one upsert

  /** A new key adds exactly one row; an existing key adds none. */
  lemma UpsertedSize(rows: map<Value, Stored>, values: seq<Value>)
    requires |values| > 0
    ensures |Upserted(rows, values)| == if values[0] in rows then |rows| else |rows| + 1
  {
    var r := Upserted(rows, values);
    if values[0] in rows {
      assert r.Keys == rows.Keys;
    } else {
      assert r.Keys == rows.Keys + {values[0]};
      assert |r.Keys| == |rows.Keys| + 1;
    }
  }

  /** An existing row keeps its key column (the UPDATE does not list `id`). */
  lemma UpsertedKeepsKey(schema: Schema, rows: map<Value, Stored>, values: seq<Value>)
    requires Consistent(schema, rows) && Accepts(schema, values) && |values| > 0
    requires values[0] in rows
    ensures Upserted(rows, values)[values[0]].cols[0] == rows[values[0]].cols[0]
    ensures Consistent(schema, Upserted(rows, values))
  {
  }

  /** Upserting the same row a second time changes nothing. */
  lemma UpsertedIdempotent(rows: map<Value, Stored>, values: seq<Value>)
    requires |values| > 0
    ensures Upserted(Upserted(rows, values), values) == Upserted(rows, values)
  {
  }

  // ---------------------------------------------------------------------
  // Properties of a sequence of upserts

  /** What a sequence of upserts leaves under each key: the last row written
      with that key (with the `is_processed` the key had before, or 0), or,
      if no write had that key, what was there before. Nothing is deleted. */
  lemma {:induction false} ApplyAllAt(rows: map<Value, Stored>, ws: seq<seq<Value>>, k: Value)
    requires NonEmptyRows(ws)
    ensures k in ApplyAll(rows, ws) <==> k in rows || LastWrite(ws, k).Some?
    ensures LastWrite(ws, k).Some? ==>
      ApplyAll(rows, ws)[k] == Stored(LastWrite(ws, k).value, if k in rows then rows[k].isProcessed else 0)
    ensures LastWrite(ws, k).None? && k in rows ==> ApplyAll(rows, ws)[k] == rows[k]
  {
    if ws != [] {
      ApplyAllAt(rows, ws[..|ws| - 1], k);
    }
  }

  /** Every key that was written is in the table afterwards. */
  lemma {:induction false} ApplyAllContains(rows: map<Value, Stored>, ws: seq<seq<Value>>, i: nat)
    requires NonEmptyRows(ws) && i < |ws|
    ensures ws[i][0] in ApplyAll(rows, ws)
  {
    if i < |ws| - 1 {
      ApplyAllContains(rows, ws[..|ws| - 1], i);
    }
  }

  /** Running the same upserts twice gives the same table as running them once. */
  lemma {:induction false} ApplyAllIdempotent(rows: map<Value, Stored>, ws: seq<seq<Value>>)
    requires NonEmptyRows(ws)
    ensures ApplyAll(ApplyAll(rows, ws), ws) == ApplyAll(rows, ws)
  {
    var once := ApplyAll(rows, ws);
    var twice := ApplyAll(once, ws);
    forall k
      ensures k in twice <==> k in once
      ensures k in once ==> twice[k] == once[k]
    {
      ApplyAllAt(rows, ws, k);
      ApplyAllAt(once, ws, k);
    }
  }

  /** One more upsert at the end of the sequence is one more upsert of the table. */
  lemma ApplyAllSnoc(rows: map<Value, Stored>, ws: seq<seq<Value>>, w: seq<Value>)
    requires NonEmptyRows(ws) && |w| > 0
    ensures NonEmptyRows(ws + [w])
    ensures ApplyAll(rows, ws + [w]) == Upserted(ApplyAll(rows, ws), w)
  {
    assert (ws + [w])[..|ws|] == ws;
  }

  /** Upserting `a` and then `b` is upserting `a + b`. */
  lemma {:induction false} ApplyAllAppend(rows: map<Value, Stored>, a: seq<seq<Value>>, b: seq<seq<Value>>)
    requires NonEmptyRows(a) && NonEmptyRows(b)
    ensures NonEmptyRows(a + b)
    ensures ApplyAll(ApplyAll(rows, a), b) == ApplyAll(rows, a + b)
  {
    if b == [] {
      assert a + b == a;
    } else {
      var front, last := b[..|b| - 1], b[|b| - 1];
      assert b == front + [last];
      assert a + b == (a + front) + [last];
      ApplyAllAppend(rows, a, front);
      ApplyAllSnoc(ApplyAll(rows, a), front, last);
      ApplyAllSnoc(rows, a + front, last);
    }
  }

  /** Upserts of accepted rows keep the table consistent. */
  lemma {:induction false} ApplyAllConsistent(schema: Schema, rows: map<Value, Stored>, ws: seq<seq<Value>>)
    requires Consistent(schema, rows)
    requires forall i :: 0 <= i < |ws| ==> Accepts(schema, ws[i]) && |ws[i]| > 0
    ensures Consistent(schema, ApplyAll(rows, ws))
  {
    if ws != [] {
      ApplyAllConsistent(schema, rows, ws[..|ws| - 1]);
    }
  }

  // ---------------------------------------------------------------------
  // The stateful table

  /** One MySQL table that the collector writes through a shared pool. */
  class Table {
    const schema: Schema
    var rows: map<Value, Stored>

    ghost predicate Valid()
      reads this
    {
      |schema.columns| > 0 && Consistent(schema, rows)
    }

    constructor (schema: Schema)
      requires |schema.columns| > 0
      ensures Valid() && this.schema == schema && rows == map[]
    {
      this.schema := schema;
      rows := map[];
    }

    /** `promisePool.execute(sql, values)` for the INSERT ... ON DUPLICATE KEY
        UPDATE statement: a refused value array throws and leaves the table
        as it was; otherwise the row is inserted or overwritten. */
    method Upsert(values: seq<Value>) returns (r: Outcome)
      requires Valid()
      modifies this
      ensures Valid()
      ensures r == if Accepts(schema, values) then Done else Thrown(WriteError)
      ensures rows == if r.Done? then Upserted(old(rows), values) else old(rows)
    {
      if !Accepts(schema, values) {
        return Thrown(WriteError);
      }
      var key := values[0];
      if key in rows {
        rows := rows[key := Stored(values, rows[key].isProcessed)];
      } else {
        rows := rows[key := Stored(values, 0)];
      }
      r := Done;
    }
  }
}
