/** One run of the scraper: for each coin, in order, turn the widget rows into
    a labelled table, compare its JSON text with the coin's latest snapshot
    file, and on a change write an archive copy and the new latest file, take
    the screenshot and send the message. A failure inside a coin's cycle ends
    that cycle, and the run goes on with the next coin. */
module Scraper {
  import opened Tables
  import Extraction
  import Labels
  import Json
  import Message
  import Timestamp

  /** The coins visited by every run, in this order. */
  const Coins: seq<string> := ["BTC", "ETH"]

  /** The data directory as a map from path to file content. */
  type Files = map<string, string>

  /** `data/<coin>_sr.json`, the latest snapshot of a coin. */
  function LatestPath(coin: string): string
  {
    "data/" + coin + "_sr.json"
  }

  /** `data/<coin>_sr_<tsFile>.json`, an archived snapshot. */
  function ArchivePath(coin: string, tsFile: string): string
  {
    "data/" + coin + "_sr_" + tsFile + ".json"
  }

  /** What the browser gave for one coin: the text of the widget's table
      cells, row by row, or a failure (navigation, page script). */
  datatype Page = PageFailed | Rows(rows: seq<Extraction.Row>)

  /** How the outside world behaves during one coin's cycle: the page, and
      whether the screenshot and the Telegram request succeed. */
  datatype Env = Env(page: Page, screenshotOk: bool, sendOk: bool)

  /** Where a failed cycle stopped. */
  datatype Stage = Scrape | Screenshot | Delivery

  /** What a coin's cycle works with once the page is read: the labelled
      table (nothing when the page failed), and whether the screenshot and
      the Telegram request succeed. */
  datatype Attempt = Attempt(scraped: Option<Table>, screenshotOk: bool, sendOk: bool)

  /** How a coin's cycle ended. */
  datatype Outcome = Unchanged | Failed(stage: Stage) | Notified(message: string)

  /** The data directory after one coin's cycle, and how the cycle ended. */
  datatype Step = Step(files: Files, outcome: Outcome)

  /** The data directory after a run, and each coin's outcome in order. */
  datatype Run = Run(files: Files, outcomes: seq<Outcome>)

  /** The labelled table the scraper builds from a page's rows. */
  function TableOf(rows: seq<Extraction.Row>): Table
  {
    Labels.Normalized(Extraction.Extracted(rows))
  }

  /** The table a page yields, or nothing when the page failed. */
  function Scraped(page: Page): Option<Table>
  {
    match page
    case PageFailed => None
    case Rows(rows) => Some(TableOf(rows))
  }

  /** The attempt a coin's cycle makes in a given outside world. */
  function AttemptOf(env: Env): Attempt
  {
    Attempt(Scraped(env.page), env.screenshotOk, env.sendOk)
  }

  /** The attempts of a run, one per coin. */
  function Attempts(envs: seq<Env>): (as_: seq<Attempt>)
    ensures |as_| == |envs|
    ensures forall i :: 0 <= i < |envs| ==> as_[i] == AttemptOf(envs[i])
  {
    seq(|envs|, i requires 0 <= i < |envs| => AttemptOf(envs[i]))
  }

  /** The change test: the latest file exists and holds exactly `text`. */
  predicate SameAsLatest(files: Files, coin: string, text: string)
  {
    LatestPath(coin) in files && files[LatestPath(coin)] == text
  }

  /** One coin's cycle, from the data directory before it. */
  function CoinStep(files: Files, coin: string, tsFile: string, tsText: string, a: Attempt): Step
  {
    match a.scraped
    case None => Step(files, Failed(Scrape))
    case Some(t) =>
      var text := Json.Serialize(t);
      if SameAsLatest(files, coin, text) then Step(files, Unchanged)
      else
        var written := files[ArchivePath(coin, tsFile) := text][LatestPath(coin) := text];
        if !a.screenshotOk then Step(written, Failed(Screenshot))
        else if !a.sendOk then Step(written, Failed(Delivery))
        else Step(written, Notified(Message.Compose(coin, tsText, t)))
  }

  /** The cycles of `coins`, one after the other, each on the directory the
      previous one left. */
  function RunCoins(files: Files, coins: seq<string>, tsFile: string, tsText: string, attempts: seq<Attempt>): (r: Run)
    requires |attempts| == |coins|
    ensures |r.outcomes| == |coins|
  {
    if coins == [] then Run(files, [])
    else
      var n := |coins| - 1;
      var before := RunCoins(files, coins[..n], tsFile, tsText, attempts[..n]);
      var step := CoinStep(before.files, coins[n], tsFile, tsText, attempts[n]);
      Run(step.files, before.outcomes + [step.outcome])
  }

  /** The `data` directory, which the scraper reads and overwrites in place. */
  class DataDir {
    var files: Files

    constructor (initial: Files)
      ensures files == initial
    {
      files := initial;
    }

    /** `fs.existsSync(path)`. */
    function Exists(path: string): bool
      reads this
    {
      path in files
    }

    /** `fs.readFileSync(path, 'utf8')`. */
    function Read(path: string): string
      reads this
      requires Exists(path)
    {
      files[path]
    }

    /** `fs.writeFileSync(path, content)`: creates or overwrites one file. */
    method Write(path: string, content: string)
      modifies this
      ensures files == old(files)[path := content]
    {
      files := files[path := content];
    }
  }

  /** The body of the per-coin loop, with its `try`/`catch`: read the page,
      build the labelled table, then persist and announce it. */
  method ProcessCoin(dir: DataDir, coin: string, tsFile: string, tsText: string, env: Env)
    returns (outcome: Outcome)
    modifies dir
    ensures var step := CoinStep(old(dir.files), coin, tsFile, tsText, AttemptOf(env));
      dir.files == step.files && outcome == step.outcome
  {
    match env.page {
      case PageFailed =>
        outcome := Failed(Scrape);
      case Rows(rows) =>
        var raw := Extraction.ExtractTable(rows);
        var sr := Labels.Normalize(raw);
        assert AttemptOf(env) == Attempt(Some(sr), env.screenshotOk, env.sendOk);
        outcome := PublishTable(dir, coin, tsFile, tsText, sr, env.screenshotOk, env.sendOk);
    }
  }

  /** The part of the cycle after the table is built: compare with the latest
      file, write the archive and the latest file, take the screenshot, send
      the message. */
  method PublishTable(dir: DataDir, coin: string, tsFile: string, tsText: string, sr: Table,
                      screenshotOk: bool, sendOk: bool)
    returns (outcome: Outcome)
    modifies dir
    ensures var step := CoinStep(old(dir.files), coin, tsFile, tsText, Attempt(Some(sr), screenshotOk, sendOk));
      dir.files == step.files && outcome == step.outcome
  {
    var latest := LatestPath(coin);
    var text := Json.Serialize(sr);
    if dir.Exists(latest) && text == dir.Read(latest) {
      outcome := Unchanged;
      return;
    }
    var base := coin + "_sr_" + tsFile;
    assert "data/" + base + ".json" == ArchivePath(coin, tsFile);
    dir.Write("data/" + base + ".json", text);
    dir.Write(latest, text);
    if !screenshotOk {
      outcome := Failed(Screenshot);
      return;
    }
    var msg := Message.Compose(coin, tsText, sr);
    if !sendOk {
      outcome := Failed(Delivery);
      return;
    }
    outcome := Notified(msg);
  }

  /** One scheduled run: the file stamp is taken from the clock text once,
      then every coin of `Coins` is processed in order. */
  method RunTask(dir: DataDir, clock: string, tsText: string, envs: seq<Env>)
    returns (outcomes: seq<Outcome>)
    requires |envs| == |Coins|
    modifies dir
    ensures var run := RunCoins(old(dir.files), Coins, Timestamp.FileStamp(clock), tsText, Attempts(envs));
      dir.files == run.files && outcomes == run.outcomes
  {
    var tsFile := Timestamp.FileStamp(clock);
    ghost var attempts := Attempts(envs);
    outcomes := [];
    for i := 0 to |Coins|
      invariant var run := RunCoins(old(dir.files), Coins[..i], tsFile, tsText, attempts[..i]);
        dir.files == run.files && outcomes == run.outcomes
    {
      assert Coins[..i + 1][..i] == Coins[..i] && attempts[..i + 1][..i] == attempts[..i];
      var outcome := ProcessCoin(dir, Coins[i], tsFile, tsText, envs[i]);
      outcomes := outcomes + [outcome];
    }
    assert Coins[..|Coins|] == Coins && attempts[..|attempts|] == attempts;
  }

  // ---------------------------------------------------------------------
  // Change detection

  /** A scraped table is "unchanged" exactly when the latest file exists and
      holds its snapshot text; a missing latest file always means a change.
      A failed page never counts as unchanged. */
  lemma {:induction false} UnchangedIff(files: Files, coin: string, tsFile: string, tsText: string, a: Attempt)
    ensures CoinStep(files, coin, tsFile, tsText, a).outcome == Unchanged <==>
            a.scraped.Some? && SameAsLatest(files, coin, Json.Serialize(a.scraped.value))
    ensures a.scraped.Some? && LatestPath(coin) !in files ==>
            CoinStep(files, coin, tsFile, tsText, a).outcome != Unchanged
  {
  }

  /** When the latest file holds the snapshot of table `t`, a scraped table is
      "unchanged" exactly when it equals `t`: same keys, values and order. */
  lemma {:induction false} UnchangedIffSameTable(files: Files, coin: string, tsFile: string, tsText: string,
                                                 a: Attempt, t: Table)
    requires a.scraped.Some?
    requires SameAsLatest(files, coin, Json.Serialize(t))
    ensures CoinStep(files, coin, tsFile, tsText, a).outcome == Unchanged <==> a.scraped.value == t
  {
    if Json.Serialize(a.scraped.value) == Json.Serialize(t) {
      Json.SerializeInjective(a.scraped.value, t);
    }
  }

  // ---------------------------------------------------------------------
  // Writes

  /** The archive and the latest file of a coin are two different files. */
  lemma {:induction false} ArchiveIsNotLatest(coin: string, tsFile: string)
    ensures ArchivePath(coin, tsFile) != LatestPath(coin)
  {
    var i := 5 + |coin| + 3;
    assert ArchivePath(coin, tsFile)[i] == '_';
    assert LatestPath(coin)[i] == '.';
  }

  /** Writing the archive and then the latest file. */
  lemma {:induction false} WriteBoth(files: Files, archive: string, latest: string, text: string)
    requires archive != latest
    ensures var after := files[archive := text][latest := text];
      && after.Keys == files.Keys + {archive, latest}
      && after[archive] == text && after[latest] == text
      && forall p :: p in files && p != archive && p != latest ==> after[p] == files[p]
  {
  }

  /** The two writes of a cycle leave every other path as it was. */
  lemma {:induction false} WriteBothKeepsOther(files: Files, archive: string, latest: string, text: string, p: string)
    requires p != archive && p != latest
    ensures var after := files[archive := text][latest := text];
      (p in after <==> p in files) && (p in files ==> after[p] == files[p])
  {
  }

  /** An unchanged or failed-to-scrape cycle writes nothing. A changed cycle
      writes exactly two files, the archive and the latest snapshot, both
      holding the new snapshot text; every other file is as it was. The
      writes happen whatever the screenshot and the message do afterwards. */
  lemma {:induction false} StepWrites(files: Files, coin: string, tsFile: string, tsText: string, a: Attempt)
    ensures var step := CoinStep(files, coin, tsFile, tsText, a);
      (step.outcome == Unchanged || step.outcome == Failed(Scrape)) ==> step.files == files
    ensures var step := CoinStep(files, coin, tsFile, tsText, a);
      step.outcome != Unchanged && step.outcome != Failed(Scrape) ==>
        && a.scraped.Some?
        && step.files.Keys == files.Keys + {ArchivePath(coin, tsFile), LatestPath(coin)}
        && step.files[ArchivePath(coin, tsFile)] == Json.Serialize(a.scraped.value)
        && step.files[LatestPath(coin)] == Json.Serialize(a.scraped.value)
        && forall p :: p in files && p != ArchivePath(coin, tsFile) && p != LatestPath(coin) ==>
             step.files[p] == files[p]
  {
    ArchiveIsNotLatest(coin, tsFile);
    if a.scraped.Some? {
      var text := Json.Serialize(a.scraped.value);
      if !SameAsLatest(files, coin, text) {
        WriteBoth(files, ArchivePath(coin, tsFile), LatestPath(coin), text);
      }
    }
  }

  /** After a cycle that scraped its page, the latest file holds that table's
      snapshot, whether or not the cycle saw a change. */
  lemma {:induction false} LatestHoldsLastSnapshot(files: Files, coin: string, tsFile: string, tsText: string, a: Attempt)
    requires a.scraped.Some?
    ensures var step := CoinStep(files, coin, tsFile, tsText, a);
      SameAsLatest(step.files, coin, Json.Serialize(a.scraped.value))
  {
    ArchiveIsNotLatest(coin, tsFile);
  }

  /** A message goes out exactly for a changed table whose screenshot was
      taken and whose request was accepted; by then both files are written,
      and the message is the composed text for that table. */
  lemma {:induction false} NotifiedAfterPersist(files: Files, coin: string, tsFile: string, tsText: string, a: Attempt)
    ensures CoinStep(files, coin, tsFile, tsText, a).outcome.Notified? <==>
            && a.scraped.Some?
            && !SameAsLatest(files, coin, Json.Serialize(a.scraped.value))
            && a.screenshotOk && a.sendOk
    ensures var step := CoinStep(files, coin, tsFile, tsText, a);
      step.outcome.Notified? ==>
        && SameAsLatest(step.files, coin, Json.Serialize(a.scraped.value))
        && step.outcome.message == Message.Compose(coin, tsText, a.scraped.value)
  {
    ArchiveIsNotLatest(coin, tsFile);
  }

  /** A coin with no latest file yet is always a change: when its page is
      scraped and the screenshot and the request succeed, its first cycle
      writes the snapshot and sends the composed message. */
  lemma {:induction false} FirstRunNotified(files: Files, coin: string, tsFile: string, tsText: string, a: Attempt)
    requires a.scraped.Some? && LatestPath(coin) !in files
    requires a.screenshotOk && a.sendOk
    ensures var step := CoinStep(files, coin, tsFile, tsText, a);
      && step.outcome == Notified(Message.Compose(coin, tsText, a.scraped.value))
      && SameAsLatest(step.files, coin, Json.Serialize(a.scraped.value))
  {
    NotifiedAfterPersist(files, coin, tsFile, tsText, a);
  }

  // ---------------------------------------------------------------------
  // Idempotence

  /** Scraping the same table again is "unchanged", writes nothing and sends
      nothing, however the first cycle ended after its writes: a failed
      screenshot or message is not retried. */
  lemma {:induction false} RerunUnchanged(files: Files, coin: string, ts1: string, text1: string, a1: Attempt,
                                          ts2: string, text2: string, a2: Attempt)
    requires a1.scraped.Some? && a2.scraped == a1.scraped
    ensures var first := CoinStep(files, coin, ts1, text1, a1);
      CoinStep(first.files, coin, ts2, text2, a2) == Step(first.files, Unchanged)
  {
    LatestHoldsLastSnapshot(files, coin, ts1, text1, a1);
  }

  // ---------------------------------------------------------------------
  // Isolation between coins

  predicate IsPrefix(a: string, b: string)
  {
    |a| <= |b| && b[..|a|] == a
  }

  /** Two coin names neither of which starts the other, as `BTC` and `ETH`. */
  predicate Unrelated(c: string, d: string)
  {
    !IsPrefix(c, d) && !IsPrefix(d, c)
  }

  lemma {:induction false} UnrelatedDiffer(c: string, d: string) returns (i: nat)
    requires Unrelated(c, d)
    ensures i < |c| && i < |d| && c[i] != d[i]
  {
    if |c| <= |d| {
      assert d[..|c|] != c;
      i :| i < |c| && d[..|c|][i] != c[i];
    } else {
      assert c[..|d|] != d;
      i :| i < |d| && c[..|d|][i] != d[i];
    }
  }

  /** No file of one coin is a file of an unrelated coin. */
  lemma {:induction false} PathsDisjoint(c: string, d: string, ts: string, ts': string)
    requires Unrelated(c, d)
    ensures LatestPath(c) != LatestPath(d)
    ensures ArchivePath(c, ts) != LatestPath(d)
    ensures ArchivePath(c, ts) != ArchivePath(d, ts')
  {
    var i := UnrelatedDiffer(c, d);
    assert LatestPath(c)[5 + i] == c[i] && ArchivePath(c, ts)[5 + i] == c[i];
    assert LatestPath(d)[5 + i] == d[i] && ArchivePath(d, ts')[5 + i] == d[i];
  }

  /** A coin's cycle leaves the latest and archive files of every unrelated
      coin as they were. */
  lemma {:induction false} OtherCoinUntouched(files: Files, c: string, tsFile: string, tsText: string, a: Attempt,
                                              d: string, ts': string)
    requires Unrelated(c, d)
    ensures var after := CoinStep(files, c, tsFile, tsText, a).files;
      && (LatestPath(d) in after <==> LatestPath(d) in files)
      && (LatestPath(d) in files ==> after[LatestPath(d)] == files[LatestPath(d)])
      && (ArchivePath(d, ts') in after <==> ArchivePath(d, ts') in files)
      && (ArchivePath(d, ts') in files ==> after[ArchivePath(d, ts')] == files[ArchivePath(d, ts')])
  {
    PathsDisjoint(c, d, tsFile, ts');
    PathsDisjoint(d, c, ts', tsFile);
    if a.scraped.Some? {
      var text := Json.Serialize(a.scraped.value);
      if !SameAsLatest(files, c, text) {
        WriteBothKeepsOther(files, ArchivePath(c, tsFile), LatestPath(c), text, LatestPath(d));
        WriteBothKeepsOther(files, ArchivePath(c, tsFile), LatestPath(c), text, ArchivePath(d, ts'));
      }
    }
  }

  /** A coin's cycle looks only at that coin's latest file. */
  lemma {:induction false} StepReadsOnlyLatest(f1: Files, f2: Files, coin: string, tsFile: string, tsText: string, a: Attempt)
    requires (LatestPath(coin) in f1 <==> LatestPath(coin) in f2)
    requires LatestPath(coin) in f1 ==> f1[LatestPath(coin)] == f2[LatestPath(coin)]
    ensures CoinStep(f1, coin, tsFile, tsText, a).outcome == CoinStep(f2, coin, tsFile, tsText, a).outcome
  {
  }

  /** The cycles of pairwise unrelated coins leave the latest file of any
      coin unrelated to all of them as it was. */
  lemma {:induction false} RunLeavesOtherLatest(files: Files, coins: seq<string>, tsFile: string, tsText: string,
                                                attempts: seq<Attempt>, d: string)
    requires |attempts| == |coins|
    requires forall j :: 0 <= j < |coins| ==> Unrelated(coins[j], d)
    ensures var after := RunCoins(files, coins, tsFile, tsText, attempts).files;
      && (LatestPath(d) in after <==> LatestPath(d) in files)
      && (LatestPath(d) in files ==> after[LatestPath(d)] == files[LatestPath(d)])
  {
    if coins != [] {
      var n := |coins| - 1;
      var before := RunCoins(files, coins[..n], tsFile, tsText, attempts[..n]);
      RunLeavesOtherLatest(files, coins[..n], tsFile, tsText, attempts[..n], d);
      OtherCoinUntouched(before.files, coins[n], tsFile, tsText, attempts[n], d, tsFile);
    }
  }

  predicate PairwiseUnrelated(coins: seq<string>)
  {
    forall i, j :: 0 <= i < j < |coins| ==> Unrelated(coins[i], coins[j])
  }

  lemma {:induction false} PrefixUnrelated(coins: seq<string>, n: nat)
    requires PairwiseUnrelated(coins) && n <= |coins|
    ensures PairwiseUnrelated(coins[..n])
  {
    var prefix := coins[..n];
    forall a, b | 0 <= a < b < |prefix|
      ensures Unrelated(prefix[a], prefix[b])
    {
      assert prefix[a] == coins[a] && prefix[b] == coins[b];
    }
  }

  /** The last coin of a run of pairwise unrelated coins ends as its cycle
      would on the directory as it was at the start of the run. */
  lemma {:induction false} LastCoinIsolated(files: Files, coins: seq<string>, tsFile: string, tsText: string,
                                            attempts: seq<Attempt>)
    requires |attempts| == |coins| && PairwiseUnrelated(coins) && coins != []
    ensures var n := |coins| - 1;
      CoinStep(RunCoins(files, coins[..n], tsFile, tsText, attempts[..n]).files, coins[n], tsFile, tsText, attempts[n]).outcome ==
      CoinStep(files, coins[n], tsFile, tsText, attempts[n]).outcome
  {
    var n := |coins| - 1;
    var prefix := coins[..n];
    forall j | 0 <= j < |prefix|
      ensures Unrelated(prefix[j], coins[n])
    {
      assert prefix[j] == coins[j];
    }
    RunLeavesOtherLatest(files, prefix, tsFile, tsText, attempts[..n], coins[n]);
    var before := RunCoins(files, prefix, tsFile, tsText, attempts[..n]);
    StepReadsOnlyLatest(before.files, files, coins[n], tsFile, tsText, attempts[n]);
  }

  /** With pairwise unrelated coins, each coin ends exactly as its cycle
      would on the directory as it was at the start of the run: a failure or
      a change for one coin does not affect the others. */
  lemma {:induction false} RunIsolation(files: Files, coins: seq<string>, tsFile: string, tsText: string,
                                        attempts: seq<Attempt>, i: nat)
    requires |attempts| == |coins| && PairwiseUnrelated(coins) && i < |coins|
    ensures RunCoins(files, coins, tsFile, tsText, attempts).outcomes[i] ==
            CoinStep(files, coins[i], tsFile, tsText, attempts[i]).outcome
  {
    var n := |coins| - 1;
    var prefix := coins[..n];
    var before := RunCoins(files, prefix, tsFile, tsText, attempts[..n]);
    var run := RunCoins(files, coins, tsFile, tsText, attempts);
    assert run.outcomes == before.outcomes +
      [CoinStep(before.files, coins[n], tsFile, tsText, attempts[n]).outcome];
    if i < n {
      PrefixUnrelated(coins, n);
      assert prefix[i] == coins[i] && attempts[..n][i] == attempts[i];
      RunIsolation(files, prefix, tsFile, tsText, attempts[..n], i);
      assert run.outcomes[i] == before.outcomes[i];
    } else {
      LastCoinIsolated(files, coins, tsFile, tsText, attempts);
    }
  }

  /** Neither of the two coin names starts the other. */
  lemma {:induction false} CoinsUnrelated()
    ensures PairwiseUnrelated(Coins)
  {
    assert Unrelated(Coins[0], Coins[1]) by {
      assert Coins[1][..3][0] != Coins[0][0];
    }
  }

  /** BTC and ETH never share a file, so each run of the scraper processes
      them independently. */
  lemma {:induction false} CoinsIsolated(files: Files, tsFile: string, tsText: string, attempts: seq<Attempt>, i: nat)
    requires |attempts| == |Coins| && i < |Coins|
    ensures RunCoins(files, Coins, tsFile, tsText, attempts).outcomes[i] ==
            CoinStep(files, Coins[i], tsFile, tsText, attempts[i]).outcome
  {
    CoinsUnrelated();
    RunIsolation(files, Coins, tsFile, tsText, attempts, i);
  }

  // ---------------------------------------------------------------------
  // Whole runs

  /** After a run of pairwise unrelated coins, the latest file of every coin
      whose page was scraped holds that table's snapshot. */
  lemma {:induction false} RunLeavesLatestSnapshots(files: Files, coins: seq<string>, tsFile: string, tsText: string,
                                                    attempts: seq<Attempt>, i: nat)
    requires |attempts| == |coins| && PairwiseUnrelated(coins) && i < |coins| && attempts[i].scraped.Some?
    ensures SameAsLatest(RunCoins(files, coins, tsFile, tsText, attempts).files, coins[i],
                         Json.Serialize(attempts[i].scraped.value))
  {
    var n := |coins| - 1;
    var prefix := coins[..n];
    var before := RunCoins(files, prefix, tsFile, tsText, attempts[..n]);
    if i == n {
      LatestHoldsLastSnapshot(before.files, coins[n], tsFile, tsText, attempts[n]);
    } else {
      PrefixUnrelated(coins, n);
      assert prefix[i] == coins[i] && attempts[..n][i] == attempts[i];
      RunLeavesLatestSnapshots(files, prefix, tsFile, tsText, attempts[..n], i);
      OtherCoinUntouched(before.files, coins[n], tsFile, tsText, attempts[n], coins[i], tsFile);
    }
  }

  /** A run in which every coin's table has the snapshot its latest file
      already holds writes nothing and ends every coin as unchanged. */
  lemma {:induction false} RunOfUnchanged(files: Files, coins: seq<string>, tsFile: string, tsText: string,
                                          attempts: seq<Attempt>)
    requires |attempts| == |coins|
    requires forall i :: 0 <= i < |coins| ==>
      attempts[i].scraped.Some? && SameAsLatest(files, coins[i], Json.Serialize(attempts[i].scraped.value))
    ensures var run := RunCoins(files, coins, tsFile, tsText, attempts);
      run.files == files && forall i :: 0 <= i < |coins| ==> run.outcomes[i] == Unchanged
  {
    if coins != [] {
      var n := |coins| - 1;
      var prefix, earlier := coins[..n], attempts[..n];
      forall i | 0 <= i < n
        ensures earlier[i].scraped.Some? &&
                SameAsLatest(files, prefix[i], Json.Serialize(earlier[i].scraped.value))
      {
        assert earlier[i] == attempts[i] && prefix[i] == coins[i];
      }
      RunOfUnchanged(files, prefix, tsFile, tsText, earlier);
      var before := RunCoins(files, prefix, tsFile, tsText, earlier);
      UnchangedIff(files, coins[n], tsFile, tsText, attempts[n]);
      StepWrites(files, coins[n], tsFile, tsText, attempts[n]);
      assert RunCoins(files, coins, tsFile, tsText, attempts).outcomes == before.outcomes + [Unchanged];
    }
  }

  /** Running again on the same tables, after a run that scraped every page,
      writes nothing and notifies nothing: each coin's table is stored once
      and announced at most once. */
  lemma {:induction false} RerunRunUnchanged(files: Files, coins: seq<string>,
                                             ts1: string, text1: string, attempts1: seq<Attempt>,
                                             ts2: string, text2: string, attempts2: seq<Attempt>)
    requires |attempts1| == |coins| && |attempts2| == |coins| && PairwiseUnrelated(coins)
    requires forall i :: 0 <= i < |coins| ==>
      attempts1[i].scraped.Some? && attempts2[i].scraped == attempts1[i].scraped
    ensures var first := RunCoins(files, coins, ts1, text1, attempts1);
      var second := RunCoins(first.files, coins, ts2, text2, attempts2);
      second.files == first.files && forall i :: 0 <= i < |coins| ==> second.outcomes[i] == Unchanged
  {
    var first := RunCoins(files, coins, ts1, text1, attempts1);
    forall i | 0 <= i < |coins|
      ensures attempts2[i].scraped.Some? &&
              SameAsLatest(first.files, coins[i], Json.Serialize(attempts2[i].scraped.value))
    {
      RunLeavesLatestSnapshots(files, coins, ts1, text1, attempts1, i);
    }
    RunOfUnchanged(first.files, coins, ts2, text2, attempts2);
  }
}
