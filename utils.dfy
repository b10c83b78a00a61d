/** Staging-table naming and the COPY null sentinel (django_bulk_load/utils.py). */
module Utils {

  /** PostgreSQL's limit on identifier length (NAMEDATALEN - 1). */
  const PostgresMaxTableNameLenChars: int := 63

  /** The two characters backslash and N: the text that COPY reads as NULL. */
  const NullCharacter: string := "\\N"

  /** Python's `s[:n]`: a negative n counts from the end. */
  function SliceTo(s: string, n: int): (r: string)
    ensures r <= s
    ensures n >= 0 ==> |r| == if n <= |s| then n else |s|
    ensures n < 0 ==> |r| == if -n <= |s| then |s| + n else 0
  {
    if n >= 0 then (if n <= |s| then s[..n] else s)
    else if -n <= |s| then s[..|s| + n]
    else []
  }

  /**
   * The staging table name for a source table: "loading_", a prefix of the
   * source name, "_", and the hex of a fresh UUID (passed in; the source
   * draws it from uuid1()). Only the source-name part is ever shortened;
   * with a hex of at most 53 characters (a UUID's has 32) the source name
   * keeps 53 - |hex| characters at most (21 for a UUID) and the whole name
   * stays under PostgreSQL's 63-character limit.
   */
  function GenerateTableName(sourceTableName: string, hex: string): (r: string)
    ensures |r| >= 9 + |hex|
    ensures r[..8] == "loading_"
    ensures r[|r| - |hex| - 1..] == "_" + hex
    ensures r[8..|r| - |hex| - 1] <= sourceTableName
    ensures |hex| <= 53 ==> |r| <= PostgresMaxTableNameLenChars - 1
    ensures |hex| <= 53 && |sourceTableName| <= 53 - |hex| ==> r[8..|r| - |hex| - 1] == sourceTableName
    ensures |hex| <= 53 && |sourceTableName| > 53 - |hex| ==> |r[8..|r| - |hex| - 1]| == 53 - |hex|
  {
    // len(table_name_template.replace("{source_table_name}", ""))
    var maxSourceTableNameLength := PostgresMaxTableNameLenChars - |"loading__" + hex|;
    var truncated := SliceTo(sourceTableName, maxSourceTableNameLength - 1);
    var r := "loading_" + truncated + "_" + hex;
    assert r[8..|r| - |hex| - 1] == truncated;
    assert r[|r| - |hex| - 1..] == "_" + hex;
    r
  }
}
