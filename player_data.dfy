/**
 * The reference dataset: `fetchPlayerData` in content.js. The response body
 * is split into lines on "\n", each line into fields on ","; the first line
 * names the columns and every later line becomes one record. This is a plain
 * split: quoting and escaping as in section 2 of RFC 4180 are not honoured.
 */
module PlayerData {
  import opened Wrappers
  import opened Text

  /**
   * A parsed row, as the object `Object.fromEntries` builds: each column
   * name maps to its field, or to `undefined` (None) when the row is short.
   */
  type Record = map<string, Option<string>>

  /** `row[i]`, which is `undefined` past the end of the row. */
  function Field(row: seq<string>, i: nat): Option<string>
  {
    if i < |row| then Some(row[i]) else None
  }

  /** Property read `rec[key]`: `undefined` for a missing key too. */
  function Get(rec: Record, key: string): Option<string>
  {
    if key in rec then rec[key] else None
  }

  /** Column `i` is the last one carrying its name, so its entry is the one kept. */
  predicate LastOccurrence(headers: seq<string>, i: int)
  {
    0 <= i < |headers| && forall j :: i < j < |headers| ==> headers[j] != headers[i]
  }

  lemma LastOccurrencePrefix(headers: seq<string>, i: int)
    requires LastOccurrence(headers, i) && i < |headers| - 1
    ensures LastOccurrence(headers[..|headers| - 1], i)
  {
  }

  /**
   * `Object.fromEntries(headers.map((header, i) => [header, row[i]]))`:
   * entries are inserted in column order, so a repeated column name keeps
   * its last field.
   */
  function ZipRecord(headers: seq<string>, row: seq<string>): Record
    decreases |headers|
  {
    if headers == [] then map[]
    else
      var n := |headers| - 1;
      ZipRecord(headers[..n], row)[headers[n] := Field(row, n)]
  }

  /**
   * The keys of a zipped record are exactly the column names (fields beyond
   * the last column are dropped), and each column name maps to the field at
   * the position where it last occurs (`undefined` past the end of the row).
   */
  lemma {:induction false} ZipRecordSpec(headers: seq<string>, row: seq<string>)
    ensures forall h :: h in ZipRecord(headers, row) <==> h in headers
    ensures forall i :: LastOccurrence(headers, i) ==> ZipRecord(headers, row)[headers[i]] == Field(row, i)
    decreases |headers|
  {
    if headers != [] {
      var n := |headers| - 1;
      ZipRecordSpec(headers[..n], row);
      var rec := ZipRecord(headers, row);
      forall h ensures h in rec <==> h in headers {
        assert headers == headers[..n] + [headers[n]];
        assert h in headers <==> h in headers[..n] || h == headers[n];
      }
      forall i | LastOccurrence(headers, i) ensures rec[headers[i]] == Field(row, i) {
        if i < n {
          LastOccurrencePrefix(headers, i);
          assert headers[..n][i] == headers[i] != headers[n];
        }
      }
    }
  }

  /** The response body's lines. */
  function Lines(text: string): seq<string>
  {
    Split(text, '\n')
  }

  /** The column names: the first line split on ",". */
  function Header(text: string): seq<string>
  {
    Split(Lines(text)[0], ',')
  }

  /** The fields of data row `i` (line `i + 1`). */
  function Row(text: string, i: nat): seq<string>
    requires i + 1 < |Lines(text)|
  {
    Split(Lines(text)[i + 1], ',')
  }

  /**
   * The parsing steps of `fetchPlayerData`: one record per line after the
   * header, so as many records as the body has newline characters.
   */
  function ParsePlayerData(text: string): (records: seq<Record>)
    ensures |records| == Count(text, '\n') == |Lines(text)| - 1
  {
    seq(|Lines(text)| - 1, i requires 0 <= i < |Lines(text)| - 1 => ZipRecord(Header(text), Row(text, i)))
  }

  /**
   * Record `i` has exactly the column names as keys and maps the `j`-th
   * column name to the `j`-th field of line `i + 1`.
   */
  lemma RecordField(text: string, i: nat, j: nat)
    requires i < |ParsePlayerData(text)|
    requires LastOccurrence(Header(text), j)
    ensures Get(ParsePlayerData(text)[i], Header(text)[j]) == Field(Row(text, i), j)
    ensures forall h :: h in ParsePlayerData(text)[i] <==> h in Header(text)
  {
    ZipRecordSpec(Header(text), Row(text, i));
  }

  /**
   * A body ending in "\n" yields a final record made from the single empty
   * field: the first column maps to "" and every other column to `undefined`.
   */
  lemma {:induction false} TrailingNewlineRecord(body: string)
    ensures var text := body + "\n";
            var records := ParsePlayerData(text);
            && |records| >= 1 && Row(text, |records| - 1) == [""]
            && forall j :: LastOccurrence(Header(text), j) ==>
                 Get(records[|records| - 1], Header(text)[j]) == if j == 0 then Some("") else None
  {
    var text := body + "\n";
    var records := ParsePlayerData(text);
    SplitSnocSep(body, '\n');
    assert Lines(text) == Lines(body) + [""];
    var last := |records| - 1;
    forall j | LastOccurrence(Header(text), j)
      ensures Get(records[last], Header(text)[j]) == if j == 0 then Some("") else None
    {
      RecordField(text, last, j);
    }
  }

  /** The result of the `fetch`: the response text, or None when it failed. */
  function FetchPlayerData(response: Option<string>): (records: seq<Record>)
    ensures response.None? ==> records == []
    ensures response.Some? ==> |records| == Count(response.value, '\n')
  {
    match response
    case None => []
    case Some(text) => ParsePlayerData(text)
  }
}
