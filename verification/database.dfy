/**
 * The retention manager's size trigger and the database path it inspects.
 * The file system is passed in: whether a path exists and how many bytes it holds.
 */
module Database {
  import opened Store

  /** The scheme prefix stripped from the connection URL to get the file path. */
  const SqlitePrefix: string := "sqlite:///"

  /** The connection URL used when none is configured. */
  const DefaultDatabaseUrl: string := "sqlite:///translator_bot.db"

  /** Bytes in a megabyte, as the size check counts them. */
  const BytesPerMb: int := 1024 * 1024

  predicate OccursAt(s: string, pat: string, i: int)
  {
    0 <= i && i + |pat| <= |s| && s[i..i + |pat|] == pat
  }

  /**
   * `s.replace(pat, '')`: scanning left to right, every non-overlapping
   * occurrence of `pat` is cut out.
   */
  function RemoveAll(s: string, pat: string): (r: string)
    requires pat != []
    ensures |r| <= |s|
    decreases |s|
  {
    if |s| < |pat| then s
    else if s[..|pat|] == pat then RemoveAll(s[|pat|..], pat)
    else [s[0]] + RemoveAll(s[1..], pat)
  }

  /** `db_path`: the connection URL with every `sqlite:///` removed. */
  function DbPath(url: string): (path: string)
    ensures |path| <= |url|
    ensures (forall i :: !OccursAt(url, SqlitePrefix, i)) ==> path == url
  {
    RemoveAllNoOccurrence(url, SqlitePrefix);
    RemoveAll(url, SqlitePrefix)
  }

  /**
   * `db_size_mb > MAX_DB_SIZE_MB` with `db_size_mb = bytes / (1024 * 1024)`,
   * decided on integers. The ensures is the comparison on exact reals, which
   * the source's float division computes exactly for any size below 2^53 bytes.
   */
  function SizeExceedsLimit(sizeBytes: nat, maxMb: int): (exceeded: bool)
    ensures exceeded <==> (sizeBytes as real) / (BytesPerMb as real) > maxMb as real
  {
    sizeBytes > maxMb * BytesPerMb
  }

  /**
   * `check_db_size`: when the database file exists and is larger than the
   * ceiling, run the same 24-hour cleanup as the scheduled job; otherwise do
   * nothing. Returns whether the cleanup ran.
   */
  method CheckDbSize(store: MessageStore, url: string, fileExists: string -> bool, fileSize: string -> nat,
                     maxMb: int, now: int, storeAvailable: bool) returns (cleaned: bool)
    requires store.Valid()
    modifies store
    ensures store.Valid()
    ensures cleaned <==> fileExists(DbPath(url)) && SizeExceedsLimit(fileSize(DbPath(url)), maxMb)
    ensures cleaned && storeAvailable ==> store.records == Retained(old(store.records), now - RetentionHorizon)
    ensures !(cleaned && storeAvailable) ==> store.records == old(store.records)
  {
    var path := DbPath(url);
    cleaned := false;
    if fileExists(path) {
      var sizeBytes := fileSize(path);
      if SizeExceedsLimit(sizeBytes, maxMb) {
        var _ := store.CleanupOldMessages(now, storeAvailable);
        cleaned := true;
      }
    }
  }

  /** The exceptions `check_db_size`'s handler catches. */
  function CheckDbSizeHandler(): (h: Handler)
    ensures forall e :: Catches(h, e) <==> e == "SQLAlchemyError" || e == "OSError"
  {
    CatchOnly({"SQLAlchemyError", "OSError"})
  }

  /**
   * The exit of `check_db_size` as written: the size test and the cleanup
   * run in a try body whose handler catches only database and OS errors.
   */
  function CheckDbSizeExitAsWritten(fileExists: bool, sizeBytes: nat, maxMb: int, storeAvailable: bool): (e: Exit)
    ensures e.Raises? <==> fileExists && SizeExceedsLimit(sizeBytes, maxMb) && !storeAvailable
  {
    var body := if fileExists && SizeExceedsLimit(sizeBytes, maxMb) then CleanupExitAsWritten(storeAvailable) else Returns;
    TryStatement(body, CheckDbSizeHandler(), Returns, Returns)
  }

  /** The same size check calling the corrected cleanup. */
  function CheckDbSizeExit(fileExists: bool, sizeBytes: nat, maxMb: int, storeAvailable: bool): Exit
  {
    var body := if fileExists && SizeExceedsLimit(sizeBytes, maxMb) then CleanupExit(storeAvailable) else Returns;
    TryStatement(body, CheckDbSizeHandler(), Returns, Returns)
  }

  /**
   * As written, an over-ceiling check on an unreachable store lets the
   * cleanup's UnboundLocalError out: the handler does not name it.
   */
  lemma CheckDbSizeEscapes(sizeBytes: nat, maxMb: int)
    requires SizeExceedsLimit(sizeBytes, maxMb)
    ensures !Catches(CheckDbSizeHandler(), "UnboundLocalError")
    ensures CheckDbSizeExitAsWritten(true, sizeBytes, maxMb, false) == Raises("UnboundLocalError")
  {
    CleanupRaisesWhenStoreDown();
  }

  /** With the corrected cleanup the size check always returns. */
  lemma CheckDbSizeExitAlwaysReturns(fileExists: bool, sizeBytes: nat, maxMb: int, storeAvailable: bool)
    ensures CheckDbSizeExit(fileExists, sizeBytes, maxMb, storeAvailable) == Returns
  {
    CleanupExitAlwaysReturns(storeAvailable);
  }

  // ---------------------------------------------------------------------------
  // Properties of the path derivation and the threshold
  // ---------------------------------------------------------------------------

  /** A string in which the pattern never occurs is left unchanged. */
  lemma {:induction false} RemoveAllNoOccurrence(s: string, pat: string)
    requires pat != []
    ensures (forall i :: !OccursAt(s, pat, i)) ==> RemoveAll(s, pat) == s
  {
    if (forall i :: !OccursAt(s, pat, i)) && |s| >= |pat| {
      assert !OccursAt(s, pat, 0);
      forall i ensures !OccursAt(s[1..], pat, i) {
        if OccursAt(s[1..], pat, i) {
          assert s[1..][i..i + |pat|] == s[i + 1..i + 1 + |pat|];
          assert OccursAt(s, pat, i + 1);
        }
      }
      RemoveAllNoOccurrence(s[1..], pat);
    }
  }

  /**
   * The first occurrence is cut out and the scan goes on after it: removing
   * from `a + pat + b`, where no occurrence starts inside `a`, gives `a`
   * followed by the removal from `b`.
   */
  lemma {:induction false} RemoveAllFirstOccurrence(a: string, pat: string, b: string)
    requires pat != []
    requires forall i :: 0 <= i < |a| ==> !OccursAt(a + pat + b, pat, i)
    ensures RemoveAll(a + pat + b, pat) == a + RemoveAll(b, pat)
  {
    var s := a + pat + b;
    if a == [] {
      assert s[..|pat|] == pat;
      assert s[|pat|..] == b;
    } else {
      assert !OccursAt(s, pat, 0);
      assert s[1..] == a[1..] + pat + b;
      forall i | 0 <= i < |a[1..]| ensures !OccursAt(a[1..] + pat + b, pat, i) {
        assert !OccursAt(s, pat, i + 1);
        if i + |pat| <= |s| - 1 {
          assert s[i + 1..i + 1 + |pat|] == s[1..][i..i + |pat|];
        }
      }
      RemoveAllFirstOccurrence(a[1..], pat, b);
      assert [a[0]] + (a[1..] + RemoveAll(b, pat)) == a + RemoveAll(b, pat);
    }
  }

  /** A string missing one of the pattern's characters has no occurrence of it. */
  lemma MissingCharNoOccurrence(s: string, pat: string, c: char)
    requires c in pat && c !in s
    ensures forall i :: !OccursAt(s, pat, i)
  {
  }

  /** A SQLite URL gives the path after its scheme, provided the path itself holds no `sqlite:///`. */
  lemma DbPathOfSqliteUrl(path: string)
    requires forall i :: !OccursAt(path, SqlitePrefix, i)
    ensures DbPath(SqlitePrefix + path) == path
  {
    var url := SqlitePrefix + path;
    assert url[..|SqlitePrefix|] == SqlitePrefix;
    assert url[|SqlitePrefix|..] == path;
    RemoveAllNoOccurrence(path, SqlitePrefix);
  }

  /** The default URL names the file `translator_bot.db`. */
  lemma DefaultDbPath()
    ensures DbPath(DefaultDatabaseUrl) == "translator_bot.db"
  {
    assert DefaultDatabaseUrl == SqlitePrefix + "translator_bot.db";
    MissingCharNoOccurrence("translator_bot.db", SqlitePrefix, ':');
    DbPathOfSqliteUrl("translator_bot.db");
  }

  /** A URL that is not a SQLite URL (no `:` at all) is used as the path unchanged. */
  lemma DbPathWithoutScheme(url: string)
    requires ':' !in url
    ensures DbPath(url) == url
  {
    MissingCharNoOccurrence(url, SqlitePrefix, ':');
    RemoveAllNoOccurrence(url, SqlitePrefix);
  }

  /** At exactly the ceiling nothing happens; one byte more triggers the cleanup. */
  lemma ThresholdIsStrict(maxMb: nat)
    ensures !SizeExceedsLimit(maxMb * BytesPerMb, maxMb)
    ensures SizeExceedsLimit(maxMb * BytesPerMb + 1, maxMb)
  {
  }
}
