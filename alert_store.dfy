/**
 * The stored alert rows: reading back the dedupe keys
 * (`load_existing_alert_keys`) and marking alerts as sent
 * (`update_alert_statuses`). A CSV file is its sequence of rows.
 */
module AlertStore {
  import opened Wrappers
  import opened Schemas
  import opened Dedupe

  /** `row.get("title") or row.get("article_title") or ""`. */
  function LegacyTitle(row: Row): string {
    if Get(row, "title") != "" then Get(row, "title") else Get(row, "article_title")
  }

  /**
   * The key one stored row contributes: none without a company or trigger
   * id, the stored `dedupe_key` when present, otherwise a key rebuilt from
   * the row's own fields.
   */
  function RowKey(row: Row): Option<string> {
    var companyId, triggerId := Get(row, "company_id"), Get(row, "trigger_id");
    if companyId == "" || triggerId == "" then None
    else
      var stored := Get(row, "dedupe_key");
      var key := if stored != "" then stored
                 else BuildDedupeKey(companyId, triggerId, Get(row, "published_at"), LegacyTitle(row));
      if key != "" then Some(key) else None
  }

  /** The set `load_existing_alert_keys` returns. */
  function ExistingKeys(rows: seq<Row>): set<string>
    decreases |rows|
  {
    if rows == [] then {}
    else
      var last := RowKey(rows[|rows| - 1]);
      ExistingKeys(rows[..|rows| - 1]) + if last.Some? then {last.value} else {}
  }

  method LoadExistingAlertKeys(rows: seq<Row>) returns (keys: set<string>)
    ensures keys == ExistingKeys(rows)
  {
    keys := {};
    var i := 0;
    while i < |rows|
      invariant 0 <= i <= |rows|
      invariant keys == ExistingKeys(rows[..i])
    {
      var row := rows[i];
      ExistingKeysSnoc(rows, i);
      var companyId := Get(row, "company_id");
      var triggerId := Get(row, "trigger_id");
      if companyId == "" || triggerId == "" {
        i := i + 1;
        continue;
      }
      var dedupeKey := Get(row, "dedupe_key");
      if dedupeKey == "" {
        var title := LegacyTitle(row);
        dedupeKey := BuildDedupeKey(companyId, triggerId, Get(row, "published_at"), title);
      }
      if dedupeKey != "" {
        keys := keys + {dedupeKey};
      }
      i := i + 1;
    }
    assert rows[..i] == rows;
  }

  lemma ExistingKeysSnoc(rows: seq<Row>, i: nat)
    requires i < |rows|
    ensures ExistingKeys(rows[..i + 1])
         == ExistingKeys(rows[..i]) + (if RowKey(rows[i]).Some? then {RowKey(rows[i]).value} else {})
  {
    assert rows[..i + 1][..i] == rows[..i];
  }

  /** Rows whose last row reads as `key` have the keys of the rows before it and `key`. */
  lemma ExistingKeysLast(rows: seq<Row>, key: string)
    requires rows != [] && RowKey(rows[|rows| - 1]) == Some(key)
    ensures ExistingKeys(rows) == ExistingKeys(rows[..|rows| - 1]) + {key}
  {
  }

  /** The keys of appended rows add to the keys already stored. */
  lemma {:induction false} ExistingKeysAppend(rows: seq<Row>, more: seq<Row>)
    ensures ExistingKeys(rows + more) == ExistingKeys(rows) + ExistingKeys(more)
    decreases |more|
  {
    if more == [] {
      assert rows + more == rows;
    } else {
      var init := more[..|more| - 1];
      ExistingKeysAppend(rows, init);
      assert (rows + more)[..|rows + more| - 1] == rows + init;
      assert (rows + more)[|rows + more| - 1] == more[|more| - 1];
    }
  }

  /** Every row's key is among the stored keys. */
  lemma {:induction false} ExistingKeysHas(rows: seq<Row>, i: nat)
    requires i < |rows| && RowKey(rows[i]).Some?
    ensures RowKey(rows[i]).value in ExistingKeys(rows)
    decreases |rows|
  {
    var init := rows[..|rows| - 1];
    if i < |init| {
      ExistingKeysHas(init, i);
      assert init[i] == rows[i];
    }
  }

  /** Every stored key is the key of some row. */
  lemma {:induction false} ExistingKeysFrom(rows: seq<Row>, key: string)
    requires key in ExistingKeys(rows)
    ensures exists i | 0 <= i < |rows| :: RowKey(rows[i]) == Some(key)
    decreases |rows|
  {
    var init := rows[..|rows| - 1];
    if key in ExistingKeys(init) {
      ExistingKeysFrom(init, key);
      var i :| 0 <= i < |init| && RowKey(init[i]) == Some(key);
      assert rows[i] == init[i];
    } else {
      assert RowKey(rows[|rows| - 1]) == Some(key);
    }
  }

  /** Rows without a company id or a trigger id contribute no key. */
  lemma RowWithoutIdsIgnored(row: Row)
    requires Get(row, "company_id") == "" || Get(row, "trigger_id") == ""
    ensures RowKey(row).None?
  {
  }

  /** A stored `dedupe_key` is used verbatim. */
  lemma StoredKeyVerbatim(row: Row)
    requires Get(row, "company_id") != "" && Get(row, "trigger_id") != ""
    requires Get(row, "dedupe_key") != ""
    ensures RowKey(row) == Some(Get(row, "dedupe_key"))
  {
  }

  /** A legacy row without a key gets one rebuilt from `title`, or else `article_title`. */
  lemma LegacyKeyRebuilt(row: Row)
    requires Get(row, "company_id") != "" && Get(row, "trigger_id") != ""
    requires Get(row, "dedupe_key") == ""
    ensures RowKey(row) == Some(BuildDedupeKey(Get(row, "company_id"), Get(row, "trigger_id"),
                                               Get(row, "published_at"),
                                               if Get(row, "title") != "" then Get(row, "title")
                                               else Get(row, "article_title")))
  {
  }

  /** The row of an alert with both ids and a key reads back as that key. */
  lemma AlertRowKey(a: Alert)
    requires a.companyId != "" && a.triggerId != "" && a.dedupeKey != ""
    ensures RowKey(AlertRow(a)) == Some(a.dedupeKey)
    ensures RowKey(AlertRow(a)["run_type" := "backtest"]) == Some(a.dedupeKey)
  {
    var r := AlertRow(a);
    var b := r["run_type" := "backtest"];
    assert Get(b, "company_id") == Get(r, "company_id");
    assert Get(b, "trigger_id") == Get(r, "trigger_id");
    assert Get(b, "dedupe_key") == Get(r, "dedupe_key");
  }

  // ---------------------------------------------------------------------
  // Status updates
  // ---------------------------------------------------------------------

  /** The row selected by the id set: `row.get("alert_id") in alert_ids` (a missing id is `None`). */
  predicate Selected(row: Row, ids: set<string>) {
    "alert_id" in row && row["alert_id"] in ids
  }

  function UpdatedRow(row: Row, ids: set<string>, status: string): Row {
    if Selected(row, ids) then row["status" := status] else row
  }

  /** The rows `update_alert_statuses` writes back. */
  function StatusUpdated(rows: seq<Row>, ids: set<string>, status: string): (r: seq<Row>)
    ensures |r| == |rows|
  {
    if ids == {} || rows == [] then rows
    else seq(|rows|, i requires 0 <= i < |rows| => UpdatedRow(rows[i], ids, status))
  }

  /** `update_alert_statuses` over the rows read from the file. */
  method UpdateAlertStatuses(rows: array<Row>, ids: set<string>, status: string)
    modifies rows
    ensures rows[..] == StatusUpdated(old(rows[..]), ids, status)
  {
    if ids == {} {
      return;
    }
    if rows.Length == 0 {
      return;
    }
    var i := 0;
    while i < rows.Length
      invariant 0 <= i <= rows.Length
      invariant forall k | 0 <= k < i :: rows[k] == UpdatedRow(old(rows[k]), ids, status)
      invariant forall k | i <= k < rows.Length :: rows[k] == old(rows[k])
    {
      if Selected(rows[i], ids) {
        rows[i] := rows[i]["status" := status];
      }
      i := i + 1;
    }
  }

  /**
   * Only the status column of the selected rows changes: row count and
   * order, every other column, and the unselected rows stay as they were.
   */
  lemma StatusUpdatedOnlyStatus(rows: seq<Row>, ids: set<string>, status: string, i: nat, key: string)
    requires i < |rows| && key != "status"
    ensures Get(StatusUpdated(rows, ids, status)[i], key) == Get(rows[i], key)
    ensures (key in StatusUpdated(rows, ids, status)[i]) == (key in rows[i])
    ensures !Selected(rows[i], ids) ==> StatusUpdated(rows, ids, status)[i] == rows[i]
    ensures Selected(rows[i], ids) ==> Get(StatusUpdated(rows, ids, status)[i], "status") == status
  {
  }

  /** An empty id set writes nothing new. */
  lemma StatusUpdatedEmpty(rows: seq<Row>, status: string)
    ensures StatusUpdated(rows, {}, status) == rows
  {
  }

  /** Marking alerts as sent leaves the stored dedupe keys as they were. */
  lemma StatusUpdatedKeys(rows: seq<Row>, ids: set<string>, status: string)
    ensures ExistingKeys(StatusUpdated(rows, ids, status)) == ExistingKeys(rows)
  {
    var r := StatusUpdated(rows, ids, status);
    forall i | 0 <= i < |rows|
      ensures RowKey(r[i]) == RowKey(rows[i])
    {
      StatusUpdatedOnlyStatus(rows, ids, status, i, "company_id");
      StatusUpdatedOnlyStatus(rows, ids, status, i, "trigger_id");
      StatusUpdatedOnlyStatus(rows, ids, status, i, "dedupe_key");
      StatusUpdatedOnlyStatus(rows, ids, status, i, "published_at");
      StatusUpdatedOnlyStatus(rows, ids, status, i, "title");
      StatusUpdatedOnlyStatus(rows, ids, status, i, "article_title");
    }
    SameKeys(r, rows);
  }

  /** Rows that yield the same keys one by one have the same key set. */
  lemma {:induction false} SameKeys(a: seq<Row>, b: seq<Row>)
    requires |a| == |b|
    requires forall i | 0 <= i < |a| :: RowKey(a[i]) == RowKey(b[i])
    ensures ExistingKeys(a) == ExistingKeys(b)
    decreases |a|
  {
    if a != [] {
      SameKeys(a[..|a| - 1], b[..|b| - 1]);
    }
  }
}
