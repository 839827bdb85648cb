/**
 * The MD5 cache of a local dataset: the rows of the `.fairly_md5` CSV file, the table they load
 * into, and the rule that decides whether a stored hash still describes the file on disk.
 */
module HashCache {
  import opened Wrappers
  import opened Text
  import opened Values
  import opened Seqs

  /** One cached entry, with its fields as the CSV reader returns them: text. */
  datatype StoredEntry = StoredEntry(date: string, size: string, md5: string)

  /** The live modification time and size of a file (time in whole units, see README). */
  datatype Stat = Stat(mtime: nat, size: nat)

  type Table = map<string, StoredEntry>

  /** A CSV row `name, date, size, md5`. */
  predicate WellFormedRow(row: seq<string>) {
    |row| == 4
  }

  predicate AllWellFormed(rows: seq<seq<string>>) {
    forall i :: 0 <= i < |rows| ==> WellFormedRow(rows[i])
  }

  function EntryOf(row: seq<string>): StoredEntry
    requires WellFormedRow(row)
  {
    StoredEntry(row[1], row[2], row[3])
  }

  /**
   * The table loaded from `rows`: a later row for the same name replaces an earlier one, and a row
   * that does not unpack into four fields is a `ValueError`.
   */
  function TableOf(rows: seq<seq<string>>): Result<Table>
    decreases |rows|
  {
    if rows == [] then Ok(map[])
    else
      var t :- TableOf(rows[..|rows| - 1]);
      var row := rows[|rows| - 1];
      if WellFormedRow(row) then Ok(t[row[0] := EntryOf(row)]) else Err(ValueError("row does not have four fields"))
  }

  /** The cache loaded from the file, `None` standing for a missing file. */
  function LoadedTable(file: Option<seq<seq<string>>>): (r: Result<Table>)
    ensures file.None? ==> r == Ok(map[])
  {
    if file.None? then Ok(map[]) else TableOf(file.value)
  }

  /** The table loads exactly when every row has four fields. */
  lemma {:induction false} TableOfSucceeds(rows: seq<seq<string>>)
    ensures TableOf(rows).Ok? <==> AllWellFormed(rows)
    decreases |rows|
  {
    if rows != [] {
      var init := rows[..|rows| - 1];
      TableOfSucceeds(init);
      assert forall i :: 0 <= i < |init| ==> init[i] == rows[i];
    }
  }

  /** Rows after a malformed one are never read. */
  lemma {:induction false} TableOfStopsAtError(rows: seq<seq<string>>, more: seq<seq<string>>)
    requires TableOf(rows).Err?
    ensures TableOf(rows + more) == TableOf(rows)
    decreases |more|
  {
    if more == [] {
      assert rows + more == rows;
    } else {
      var init := more[..|more| - 1];
      TableOfStopsAtError(rows, init);
      var all := rows + more;
      ConcatInit(rows, more);
    }
  }

  /** The names in the table are the names of the rows. */
  lemma {:induction false} TableKeys(rows: seq<seq<string>>)
    requires AllWellFormed(rows)
    ensures TableOf(rows).Ok?
    ensures forall name :: name in TableOf(rows).value <==> exists i :: 0 <= i < |rows| && rows[i][0] == name
    decreases |rows|
  {
    TableOfSucceeds(rows);
    if rows != [] {
      var init := rows[..|rows| - 1];
      TableKeys(init);
      forall name | exists i :: 0 <= i < |rows| && rows[i][0] == name
        ensures name in TableOf(rows).value
      {
        var i :| 0 <= i < |rows| && rows[i][0] == name;
        if i < |init| {
          assert init[i] == rows[i];
        }
      }
    }
  }

  /** The entry of a name comes from the last row that carries it. */
  lemma {:induction false} LastRowWins(rows: seq<seq<string>>, i: nat)
    requires AllWellFormed(rows)
    requires i < |rows| && forall j :: i < j < |rows| ==> rows[j][0] != rows[i][0]
    ensures TableOf(rows).Ok? && rows[i][0] in TableOf(rows).value
    ensures TableOf(rows).value[rows[i][0]] == EntryOf(rows[i])
    decreases |rows|
  {
    TableOfSucceeds(rows);
    var init := rows[..|rows| - 1];
    if i < |rows| - 1 {
      assert init[i] == rows[i];
      LastRowWins(init, i);
    }
  }

  /**
   * The attachment rule as `_get_files` writes it: the stored date and size are text and the live
   * values are numbers, and Python's `!=` between a string and a number is always true.
   */
  function CachedMd5AsWritten(entry: Option<StoredEntry>, live: Stat): Option<string> {
    if entry.None? then None
    else
      var e := entry.value;
      if e.date == [] || VStr(e.date) != VInt(live.mtime) || VStr(e.size) != VInt(live.size) then None
      else Some(e.md5)
  }

  /** As written, no entry is ever honoured, however current it is. */
  lemma CachedMd5AsWrittenNeverValidates(m: nat, s: nat, md5: string)
    ensures CachedMd5AsWritten(Some(StoredEntry(FormatNat(m), FormatNat(s), md5)), Stat(m, s)) == None
  {
  }

  /**
   * The intended rule: a stored hash is attached only when the entry's date is non-empty and the
   * stored date and size are the text of the live modification time and size.
   */
  function CachedMd5(entry: Option<StoredEntry>, live: Stat): (r: Option<string>)
    ensures r.Some? ==> entry.Some? && r.value == entry.value.md5
  {
    if entry.None? then None
    else
      var e := entry.value;
      if e.date == [] || e.date != FormatNat(live.mtime) || e.size != FormatNat(live.size) then None
      else Some(e.md5)
  }

  /** An attached hash means the stored values read back as the live ones. */
  lemma CachedMd5Sound(entry: Option<StoredEntry>, live: Stat)
    requires CachedMd5(entry, live).Some?
    ensures ParseNat(entry.value.date) == Some(live.mtime) && ParseNat(entry.value.size) == Some(live.size)
  {
    ParseFormatNat(live.mtime);
    ParseFormatNat(live.size);
  }

  /** An entry written for a file is honoured while its modification time and size are unchanged. */
  lemma CacheHonoured(m: nat, s: nat, md5: string)
    ensures CachedMd5(Some(StoredEntry(FormatNat(m), FormatNat(s), md5)), Stat(m, s)) == Some(md5)
  {
  }

  /** The same entry is invalidated once either the modification time or the size changes. */
  lemma CacheInvalidated(m: nat, s: nat, md5: string, live: Stat)
    requires live.mtime != m || live.size != s
    ensures CachedMd5(Some(StoredEntry(FormatNat(m), FormatNat(s), md5)), live) == None
  {
    if live.mtime != m {
      FormatNatInjective(live.mtime, m);
    } else {
      FormatNatInjective(live.size, s);
    }
  }
}
