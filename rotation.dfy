/**
 * `translate_batch` of translator/translate_srt_gemini.py: credential rotation
 * over the (model, key) matrix.
 *
 * One pass visits the cells models-outer, keys-inner, skips the cells that are
 * cooling down, sends the batch to each remaining cell until one answers, and
 * blocks every cell whose call fails, whatever the error. When a pass finds
 * nothing, either some cell has become available meanwhile (sleep 2 s and pass
 * again), or every cell is blocked: watch mode sleeps until the quota reset and
 * clears the matrix, run-once mode stops the program (`sys.exit(1)`).
 *
 * `Visit`, `Scan` and `Rounds` are the specification; `TranslateBatch` is the
 * loop the source runs, proved equal to it. The source's `while True` is bounded
 * by a number of rounds, `fuel`.
 */
module Rotation {
  import opened Text
  import opened Wrappers
  import opened Cooldown
  import opened Gemini

  /** The configuration the translator reads from its environment. */
  datatype Config = Config(
    models: seq<string>,      // GEMINI_MODELS, in priority order
    keyCount: nat,            // len(GEMINI_API_KEYS)
    cooldownSeconds: nat,     // COOLDOWN_SECONDS
    batchSize: nat,           // BATCH_SIZE
    pauseSeconds: nat,        // PAUSE_SECONDS
    watchMode: bool,          // WATCH_MODE
    utcOffset: int)           // offset of Europe/Paris from UTC, in seconds

  /** The pause after a fruitless pass while some cell is available. */
  const RescanPause: nat := 2

  datatype Hit = Hit(text: string, cell: Cell)
  /** The state of one pass: the matrix, the requests sent, the clock, and the answer once found. */
  datatype Pass = Pass(expiry: map<Cell, nat>, sent: nat, now: nat, hit: Option<Hit>)

  /** One iteration of the inner loop: skip, succeed, or block the cell. */
  function Visit(cfg: Config, provider: Provider, text: string, p: Pass, c: Cell): (r: Pass)
    ensures r.sent >= p.sent && r.now >= p.now
    ensures p.hit.Some? ==> r == p
  {
    if p.hit.Some? || !Available(p.expiry, c, p.now) then p
    else
      var call := CallOutcome(provider, c, text, p.sent, p.now);
      match call.result
      case Translated(answer) => Pass(p.expiry, call.sent, call.now, Some(Hit(answer, c)))
      case Failed(_) => Pass(p.expiry[c := call.now + cfg.cooldownSeconds], call.sent, call.now, None)
  }

  /** The body of the inner loop, as a function of the pass state and the cell. */
  type Visitor = (Pass, Cell) -> Pass

  /** The visit of `translate_batch` for one configuration, provider and request text. */
  function VisitOf(cfg: Config, provider: Provider, text: string): Visitor {
    (p: Pass, c: Cell) => Visit(cfg, provider, text, p, c)
  }

  /** The nested `for` loops over the cells `cs`, in order, running `visit` on each. */
  function Scan(visit: Visitor, p: Pass, cs: seq<Cell>): Pass
    decreases |cs|
  {
    if cs == [] then p
    else visit(Scan(visit, p, cs[..|cs| - 1]), cs[|cs| - 1])
  }

  /** Once a cell has answered, a visit changes nothing. */
  ghost predicate StopsAtHit(visit: Visitor) {
    forall p: Pass, c: Cell :: p.hit.Some? ==> visit(p, c) == p
  }

  /** A visit never moves the request count or the clock back. */
  ghost predicate Forward(visit: Visitor) {
    forall p: Pass, c: Cell :: visit(p, c).sent >= p.sent && visit(p, c).now >= p.now
  }

  /** A visit changes the expiry of no cell but its own. */
  ghost predicate Local(visit: Visitor) {
    forall p: Pass, c: Cell, d: Cell :: d != c ==> ExpiryOf(visit(p, c).expiry, d) == ExpiryOf(p.expiry, d)
  }

  /**
   * A visit answers only from an available cell, with a non-blank text, and
   * blocks the cell until the end of its call plus COOLDOWN_SECONDS when the
   * call fails; a cooling cell is skipped without a request.
   */
  lemma VisitMeans(cfg: Config, provider: Provider, text: string, p: Pass, c: Cell)
    requires p.hit.None?
    ensures var r := Visit(cfg, provider, text, p, c);
            var call := CallOutcome(provider, c, text, p.sent, p.now);
            && (!Available(p.expiry, c, p.now) ==> r == p)
            && (r.hit.Some? ==> Available(p.expiry, c, p.now) && r.hit.value.cell == c && Strip(r.hit.value.text) != "")
            && (Available(p.expiry, c, p.now) && call.result.Failed? ==>
                  r == Pass(p.expiry[c := call.now + cfg.cooldownSeconds], call.sent, call.now, None))
  {
    CallOutcomeSpec(provider, c, text, p.sent, p.now);
  }

  /** The visit of `translate_batch` stops at an answer, moves forward, and touches only its own cell. */
  lemma VisitOfProperties(cfg: Config, provider: Provider, text: string)
    ensures StopsAtHit(VisitOf(cfg, provider, text))
    ensures Forward(VisitOf(cfg, provider, text))
    ensures Local(VisitOf(cfg, provider, text))
  {
    var visit := VisitOf(cfg, provider, text);
    forall p: Pass, c: Cell, d: Cell | d != c
      ensures ExpiryOf(visit(p, c).expiry, d) == ExpiryOf(p.expiry, d)
    {
      assert visit(p, c) == Visit(cfg, provider, text, p, c);
    }
  }

  /** The answer of a pass is non-blank and comes from one of the cells it visits. */
  lemma {:induction false} ScanHit(cfg: Config, provider: Provider, text: string, p: Pass, cs: seq<Cell>)
    requires p.hit.None?
    ensures var r := Scan(VisitOf(cfg, provider, text), p, cs);
            r.hit.Some? ==> r.hit.value.cell in cs && Strip(r.hit.value.text) != ""
    decreases |cs|
  {
    if cs != [] {
      var visit := VisitOf(cfg, provider, text);
      var q := Scan(visit, p, cs[..|cs| - 1]);
      ScanHit(cfg, provider, text, p, cs[..|cs| - 1]);
      assert Scan(visit, p, cs) == Visit(cfg, provider, text, q, cs[|cs| - 1]);
      if q.hit.None? {
        VisitMeans(cfg, provider, text, q, cs[|cs| - 1]);
      }
    }
  }

  datatype Outcome = Done(text: string, cell: Cell) | Exhausted | OutOfRounds
  /** The outcome, the matrix, the requests sent and the clock after `translate_batch`. */
  datatype Run = Run(outcome: Outcome, expiry: map<Cell, nat>, sent: nat, now: nat)

  /** After a pass, `translate_batch` either returns, or goes on from a new state. */
  datatype Step = Stop(run: Run) | Again(expiry: map<Cell, nat>, sent: nat, now: nat)

  /**
   * What `translate_batch` does once a pass `p` is over: return its answer,
   * pause 2 s and pass again while some cell is available, wait for the quota
   * reset with a cleared matrix in watch mode, or give up.
   */
  function Decide(cfg: Config, p: Pass): (s: Step)
    ensures s.Stop? ==> s.run.outcome != OutOfRounds
    ensures s.Stop? && s.run.outcome.Exhausted? ==> !cfg.watchMode && !AnyAvailable(p.expiry, cfg.models, cfg.keyCount, p.now)
    ensures s.Again? <==> p.hit.None? && (cfg.watchMode || AnyAvailable(p.expiry, cfg.models, cfg.keyCount, p.now))
    ensures s.Again? ==> s.sent == p.sent && s.now > p.now
  {
    if p.hit.Some? then
      Stop(Run(Done(p.hit.value.text, p.hit.value.cell), p.expiry, p.sent, p.now))
    else if AnyAvailable(p.expiry, cfg.models, cfg.keyCount, p.now) then
      Again(p.expiry, p.sent, p.now + RescanPause)
    else if cfg.watchMode then
      Again(map[], p.sent, p.now + NextQuotaReset(TimeOfDay(p.now, cfg.utcOffset)).waitSeconds)
    else
      Stop(Run(Exhausted, p.expiry, p.sent, p.now))
  }

  /** The `while True` loop of `translate_batch`, for at most `fuel` passes. */
  function Rounds(cfg: Config, provider: Provider, text: string, expiry: map<Cell, nat>, sent: nat, now: nat, fuel: nat): Run
    decreases fuel
  {
    if fuel == 0 then Run(OutOfRounds, expiry, sent, now)
    else
      match Decide(cfg, Scan(VisitOf(cfg, provider, text), Pass(expiry, sent, now, None), Cells(cfg.models, cfg.keyCount)))
      case Stop(r) => r
      case Again(e, n, t) => Rounds(cfg, provider, text, e, n, t, fuel - 1)
  }

  /**
   * `translate_batch` returns a non-blank translation from a cell of the
   * matrix, gives up (run-once mode only) only when no cell is available,
   * and never moves the request count or the clock back.
   */
  lemma {:induction false} RoundsMeans(cfg: Config, provider: Provider, text: string, expiry: map<Cell, nat>,
                                       sent: nat, now: nat, fuel: nat)
    ensures var r := Rounds(cfg, provider, text, expiry, sent, now, fuel);
            && r.sent >= sent && r.now >= now
            && (r.outcome.Done? ==>
                  Strip(r.outcome.text) != "" && r.outcome.cell.model in cfg.models && r.outcome.cell.key < cfg.keyCount)
            && (r.outcome.Exhausted? ==> !cfg.watchMode && !AnyAvailable(r.expiry, cfg.models, cfg.keyCount, r.now))
    decreases fuel
  {
    if fuel > 0 {
      var cells := Cells(cfg.models, cfg.keyCount);
      var start := Pass(expiry, sent, now, None);
      var p := Scan(VisitOf(cfg, provider, text), start, cells);
      VisitOfProperties(cfg, provider, text);
      ScanForward(VisitOf(cfg, provider, text), start, cells);
      match Decide(cfg, p)
      case Stop(r) =>
        if p.hit.Some? {
          ScanHit(cfg, provider, text, start, cells);
          CellsMembership(cfg.models, cfg.keyCount, p.hit.value.cell);
        }
      case Again(e, n, t) =>
        RoundsMeans(cfg, provider, text, e, n, t, fuel - 1);
    }
  }

  // ---------------------------------------------------------------------------
  // Properties of a pass
  // ---------------------------------------------------------------------------

  lemma {:induction false} ScanAppend(visit: Visitor, p: Pass, a: seq<Cell>, b: seq<Cell>)
    ensures Scan(visit, p, a + b) == Scan(visit, Scan(visit, p, a), b)
    decreases |b|
  {
    if b == [] {
      assert a + b == a;
    } else {
      assert (a + b)[..|a + b| - 1] == a + b[..|b| - 1];
      ScanAppend(visit, p, a, b[..|b| - 1]);
    }
  }

  lemma ScanSnoc(visit: Visitor, p: Pass, cs: seq<Cell>, c: Cell)
    ensures Scan(visit, p, cs + [c]) == visit(Scan(visit, p, cs), c)
  {
    assert (cs + [c])[..|cs|] == cs;
  }

  /** A pass never moves the request count or the clock back. */
  lemma {:induction false} ScanForward(visit: Visitor, p: Pass, cs: seq<Cell>)
    requires Forward(visit)
    ensures Scan(visit, p, cs).sent >= p.sent && Scan(visit, p, cs).now >= p.now
    decreases |cs|
  {
    if cs != [] {
      ScanForward(visit, p, cs[..|cs| - 1]);
    }
  }

  /** Once a cell has answered, the rest of the pass changes nothing (the early `return`). */
  lemma {:induction false} ScanAfterHit(visit: Visitor, p: Pass, cs: seq<Cell>)
    requires StopsAtHit(visit) && p.hit.Some?
    ensures Scan(visit, p, cs) == p
    decreases |cs|
  {
    if cs != [] {
      ScanAfterHit(visit, p, cs[..|cs| - 1]);
    }
  }

  /** The `i`-th cell of `cs` is the one that answers: the pass reaches it without an answer and its visit answers. */
  predicate AnswersAt(visit: Visitor, p: Pass, cs: seq<Cell>, i: nat)
    requires i < |cs|
  {
    var before := Scan(visit, p, cs[..i]);
    before.hit.None? && visit(before, cs[i]).hit.Some?
  }

  /**
   * The answer of a pass comes from the first cell, in visiting order, that
   * answered: the returned index `i` is that cell's, no cell before it
   * answered, and the rest of the pass changes nothing.
   */
  lemma {:induction false} ScanFirstHit(visit: Visitor, p: Pass, cs: seq<Cell>) returns (i: nat)
    requires StopsAtHit(visit) && p.hit.None? && Scan(visit, p, cs).hit.Some?
    ensures i < |cs| && AnswersAt(visit, p, cs, i)
    ensures Scan(visit, p, cs[..i + 1]) == Scan(visit, p, cs)
    decreases |cs|
  {
    var n := |cs| - 1;
    var front := cs[..n];
    var q := Scan(visit, p, front);
    assert cs[..n + 1] == cs;
    if q.hit.Some? {
      i := ScanFirstHit(visit, p, front);
      assert front[..i] == cs[..i] && front[..i + 1] == cs[..i + 1] && front[i] == cs[i];
    } else {
      i := n;
    }
  }

  /** The cell that answers was available when the pass reached it, and its non-blank text is the answer. */
  lemma AnswersAtMeans(cfg: Config, provider: Provider, text: string, p: Pass, cs: seq<Cell>, i: nat)
    requires i < |cs| && AnswersAt(VisitOf(cfg, provider, text), p, cs, i)
    ensures var before := Scan(VisitOf(cfg, provider, text), p, cs[..i]);
            Available(before.expiry, cs[i], before.now)
    ensures var r := Scan(VisitOf(cfg, provider, text), p, cs[..i + 1]);
            r.hit.Some? && r.hit.value.cell == cs[i] && Strip(r.hit.value.text) != ""
  {
    var visit := VisitOf(cfg, provider, text);
    var before := Scan(visit, p, cs[..i]);
    assert cs[..i + 1][..i] == cs[..i];
    assert Scan(visit, p, cs[..i + 1]) == Visit(cfg, provider, text, before, cs[i]);
    VisitMeans(cfg, provider, text, before, cs[i]);
  }

  /** A pass changes the expiry of no cell outside the ones it visits. */
  lemma {:induction false} ScanFrame(visit: Visitor, p: Pass, cs: seq<Cell>, c: Cell)
    requires Local(visit) && c !in cs
    ensures ExpiryOf(Scan(visit, p, cs).expiry, c) == ExpiryOf(p.expiry, c)
    decreases |cs|
  {
    if cs != [] {
      assert c !in cs[..|cs| - 1] by {
        assert forall d :: d in cs[..|cs| - 1] ==> d in cs;
      }
      ScanFrame(visit, p, cs[..|cs| - 1], c);
    }
  }

  /**
   * Every cell whose call fails is blocked until the instant of the failure
   * plus COOLDOWN_SECONDS, whatever the error, and stays so for the rest of
   * the pass (the cells of a pass are distinct).
   */
  lemma ScanBlocksFailure(cfg: Config, provider: Provider, text: string, p: Pass, cs: seq<Cell>, i: nat)
    requires i < |cs|
    requires forall a, b :: 0 <= a < b < |cs| ==> cs[a] != cs[b]
    requires Scan(VisitOf(cfg, provider, text), p, cs[..i]).hit.None?
    requires var q := Scan(VisitOf(cfg, provider, text), p, cs[..i]);
             Available(q.expiry, cs[i], q.now) && CallOutcome(provider, cs[i], text, q.sent, q.now).result.Failed?
    ensures var q := Scan(VisitOf(cfg, provider, text), p, cs[..i]);
            ExpiryOf(Scan(VisitOf(cfg, provider, text), p, cs).expiry, cs[i]) ==
            CallOutcome(provider, cs[i], text, q.sent, q.now).now + cfg.cooldownSeconds
  {
    var visit := VisitOf(cfg, provider, text);
    var q := Scan(visit, p, cs[..i]);
    var call := CallOutcome(provider, cs[i], text, q.sent, q.now);
    assert cs[..i + 1] == cs[..i] + [cs[i]];
    ScanSnoc(visit, p, cs[..i], cs[i]);
    var after := Scan(visit, p, cs[..i + 1]);
    assert after == Visit(cfg, provider, text, q, cs[i]);
    VisitMeans(cfg, provider, text, q, cs[i]);
    assert after.expiry == q.expiry[cs[i] := call.now + cfg.cooldownSeconds];
    assert cs == cs[..i + 1] + cs[i + 1..];
    ScanAppend(visit, p, cs[..i + 1], cs[i + 1..]);
    var tail := cs[i + 1..];
    forall k | 0 <= k < |tail| ensures tail[k] != cs[i] {
      assert tail[k] == cs[i + 1 + k];
    }
    VisitOfProperties(cfg, provider, text);
    ScanFrame(visit, after, tail, cs[i]);
  }

  /**
   * After `wait_for_quota_reset` the matrix is empty, so the next pass sends
   * its first request to the first model with the first key; if that request
   * gets a non-blank answer, the pass ends there with that cell.
   */
  lemma ResetTriesFirstCell(cfg: Config, provider: Provider, text: string, sent: nat, now: nat)
    requires |cfg.models| > 0 && cfg.keyCount > 0
    ensures var first := provider(Request(sent, Cell(cfg.models[0], 0), text));
            first.Answer? && Strip(first.text) != "" ==>
              Scan(VisitOf(cfg, provider, text), Pass(map[], sent, now, None), Cells(cfg.models, cfg.keyCount)) ==
              Pass(map[], sent + 1, now, Some(Hit(first.text, Cell(cfg.models[0], 0))))
  {
    var visit := VisitOf(cfg, provider, text);
    var cells := Cells(cfg.models, cfg.keyCount);
    var c0 := Cell(cfg.models[0], 0);
    var first := provider(Request(sent, c0, text));
    CellsFirst(cfg.models, cfg.keyCount);
    if first.Answer? && Strip(first.text) != "" {
      var p := Pass(map[], sent, now, None);
      FreshVisitAnswers(cfg, provider, text, sent, now, c0);
      assert visit(p, c0) == Visit(cfg, provider, text, p, c0);
      VisitOfProperties(cfg, provider, text);
      ScanStartsWithHit(visit, p, cells);
    }
  }

  /** On a cleared matrix, a cell whose first request gets a non-blank answer ends the pass with it. */
  lemma FreshVisitAnswers(cfg: Config, provider: Provider, text: string, sent: nat, now: nat, c: Cell)
    ensures var first := provider(Request(sent, c, text));
            first.Answer? && Strip(first.text) != "" ==>
              Visit(cfg, provider, text, Pass(map[], sent, now, None), c) == Pass(map[], sent + 1, now, Some(Hit(first.text, c)))
  {
    assert Available(map[], c, now);
  }

  /** A pass whose first visit answers ends there. */
  lemma ScanStartsWithHit(visit: Visitor, p: Pass, cs: seq<Cell>)
    requires StopsAtHit(visit) && cs != [] && visit(p, cs[0]).hit.Some?
    ensures Scan(visit, p, cs) == visit(p, cs[0])
  {
    assert cs == [cs[0]] + cs[1..];
    ScanAppend(visit, p, [cs[0]], cs[1..]);
    ScanSnoc(visit, p, [], cs[0]);
    assert [] + [cs[0]] == [cs[0]];
    ScanAfterHit(visit, visit(p, cs[0]), cs[1..]);
  }

  // ---------------------------------------------------------------------------
  // The loop
  // ---------------------------------------------------------------------------

  /** The cells visited before (mi, k), then the rest of the visiting order. */
  lemma CellsPrefix(models: seq<string>, keyCount: nat, mi: nat, k: nat)
    requires mi < |models| && k < keyCount
    ensures Cells(models, keyCount) ==
            Cells(models[..mi], keyCount) + KeysOf(models[mi], k + 1) +
            (KeysOf(models[mi], keyCount)[k + 1..] + Cells(models[mi + 1..], keyCount))
  {
    var a, keys, d := Cells(models[..mi], keyCount), KeysOf(models[mi], keyCount), Cells(models[mi + 1..], keyCount);
    var b, c := KeysOf(models[mi], k + 1), keys[k + 1..];
    assert Cells(models, keyCount) == (a + keys) + d by {
      CellsAppend(models[..mi + 1], models[mi + 1..], keyCount);
      assert models[..mi + 1] + models[mi + 1..] == models;
      CellsSnoc(models, keyCount, mi);
    }
    assert keys == b + c by {
      KeysPrefix(models[mi], keyCount, k + 1);
    }
    Regroup(a, b, c, d);
  }

  lemma Regroup<T>(a: seq<T>, b: seq<T>, c: seq<T>, d: seq<T>)
    ensures (a + (b + c)) + d == a + b + (c + d)
  {
  }

  /** The first `n` keys of a model are a prefix of all its keys. */
  lemma KeysPrefix(m: string, keyCount: nat, n: nat)
    requires n <= keyCount
    ensures KeysOf(m, keyCount) == KeysOf(m, n) + KeysOf(m, keyCount)[n..]
  {
    assert KeysOf(m, keyCount)[..n] == KeysOf(m, n);
  }

  lemma KeysSnoc(m: string, k: nat)
    ensures KeysOf(m, k) + [Cell(m, k)] == KeysOf(m, k + 1)
  {
  }

  lemma CellsSnoc(models: seq<string>, keyCount: nat, mi: nat)
    requires mi < |models|
    ensures Cells(models[..mi + 1], keyCount) == Cells(models[..mi], keyCount) + KeysOf(models[mi], keyCount)
  {
    assert models[..mi + 1][..mi] == models[..mi];
  }

  /**
   * One pass of `translate_batch`: the nested `for` loops over the models and
   * the keys, returning at the first answer. The table ends as the pass leaves
   * the matrix.
   */
  method RunPass(cfg: Config, table: CooldownTable, provider: Provider, text: string, sent: nat, now: nat)
    returns (hit: Option<Hit>, sent': nat, now': nat)
    requires table.cooldownSeconds == cfg.cooldownSeconds
    modifies table
    ensures Pass(table.expiry, sent', now', hit) ==
            Scan(VisitOf(cfg, provider, text), Pass(old(table.expiry), sent, now, None), Cells(cfg.models, cfg.keyCount))
  {
    ghost var start := Pass(table.expiry, sent, now, None);
    sent', now' := sent, now;
    var mi := 0;
    while mi < |cfg.models|
      invariant 0 <= mi <= |cfg.models|
      invariant Scan(VisitOf(cfg, provider, text), start, Cells(cfg.models[..mi], cfg.keyCount)) == Pass(table.expiry, sent', now', None)
    {
      var model := cfg.models[mi];
      var keyIndex := 0;
      assert Cells(cfg.models[..mi], cfg.keyCount) + KeysOf(model, 0) == Cells(cfg.models[..mi], cfg.keyCount);
      while keyIndex < cfg.keyCount
        invariant 0 <= keyIndex <= cfg.keyCount
        invariant Scan(VisitOf(cfg, provider, text), start, Cells(cfg.models[..mi], cfg.keyCount) + KeysOf(model, keyIndex)) ==
                  Pass(table.expiry, sent', now', None)
      {
        ghost var q := Pass(table.expiry, sent', now', None);
        var found;
        found, sent', now' := VisitCell(cfg, table, provider, text, Cell(model, keyIndex), sent', now');
        ScanNextKey(cfg, provider, text, start, cfg.models[..mi], model, keyIndex, q);
        if found.Some? {
          PassEndsAt(cfg, provider, text, start, mi, keyIndex, Pass(table.expiry, sent', now', found));
          return found, sent', now';
        }
        keyIndex := keyIndex + 1;
      }
      CellsSnoc(cfg.models, cfg.keyCount, mi);
      mi := mi + 1;
    }
    assert cfg.models[..mi] == cfg.models;
    hit := None;
  }

  /** Visiting the next key of the current model extends the scan by one step. */
  lemma ScanNextKey(cfg: Config, provider: Provider, text: string, start: Pass, done: seq<string>, model: string, k: nat, q: Pass)
    requires Scan(VisitOf(cfg, provider, text), start, Cells(done, cfg.keyCount) + KeysOf(model, k)) == q
    ensures Scan(VisitOf(cfg, provider, text), start, Cells(done, cfg.keyCount) + KeysOf(model, k + 1)) ==
            Visit(cfg, provider, text, q, Cell(model, k))
  {
    var visited := Cells(done, cfg.keyCount) + KeysOf(model, k);
    KeysSnoc(model, k);
    assert visited + [Cell(model, k)] == Cells(done, cfg.keyCount) + KeysOf(model, k + 1);
    ScanSnoc(VisitOf(cfg, provider, text), start, visited, Cell(model, k));
  }

  /**
   * One iteration of the inner loop: skip a cooling cell, call an available
   * one, and block it when the call fails.
   */
  method VisitCell(cfg: Config, table: CooldownTable, provider: Provider, text: string, cell: Cell, sent: nat, now: nat)
    returns (hit: Option<Hit>, sent': nat, now': nat)
    requires table.cooldownSeconds == cfg.cooldownSeconds
    modifies table
    ensures Pass(table.expiry, sent', now', hit) == Visit(cfg, provider, text, Pass(old(table.expiry), sent, now, None), cell)
  {
    ghost var q := Pass(table.expiry, sent, now, None);
    VisitMeans(cfg, provider, text, q, cell);
    hit, sent', now' := None, sent, now;
    if table.IsAvailable(cell, now) {
      var call := CallGemini(provider, cell, text, sent, now);
      match call.result {
        case Translated(answer) =>
          hit, sent', now' := Some(Hit(answer, cell)), call.sent, call.now;
        case Failed(_) =>
          table.Block(cell, call.now);
          sent', now' := call.sent, call.now;
      }
    }
  }

  /** When the cell (mi, k) answers, the whole pass ends with its answer. */
  lemma PassEndsAt(cfg: Config, provider: Provider, text: string, start: Pass, mi: nat, k: nat, found: Pass)
    requires mi < |cfg.models| && k < cfg.keyCount && found.hit.Some?
    requires Scan(VisitOf(cfg, provider, text), start, Cells(cfg.models[..mi], cfg.keyCount) + KeysOf(cfg.models[mi], k + 1)) == found
    ensures Scan(VisitOf(cfg, provider, text), start, Cells(cfg.models, cfg.keyCount)) == found
  {
    var visit := VisitOf(cfg, provider, text);
    CellsPrefix(cfg.models, cfg.keyCount, mi, k);
    var rest := KeysOf(cfg.models[mi], cfg.keyCount)[k + 1..] + Cells(cfg.models[mi + 1..], cfg.keyCount);
    ScanAppend(visit, start, Cells(cfg.models[..mi], cfg.keyCount) + KeysOf(cfg.models[mi], k + 1), rest);
    VisitOfProperties(cfg, provider, text);
    ScanAfterHit(visit, found, rest);
  }

  /**
   * One iteration of the `while True` loop of `translate_batch`: a pass, then,
   * when it found nothing, the 2-second pause, the wait for the quota reset or
   * the exit. The result is the `Decide` of the pass: either the batch is over
   * (`Some`), or the next iteration starts from the new state.
   */
  method RunRound(cfg: Config, table: CooldownTable, provider: Provider, text: string, sent: nat, now: nat)
    returns (outcome: Option<Outcome>, sent': nat, now': nat)
    requires table.cooldownSeconds == cfg.cooldownSeconds
    modifies table
    ensures Decide(cfg, Scan(VisitOf(cfg, provider, text), Pass(old(table.expiry), sent, now, None), Cells(cfg.models, cfg.keyCount))) ==
            if outcome.Some? then Stop(Run(outcome.value, table.expiry, sent', now')) else Again(table.expiry, sent', now')
  {
    var hit;
    hit, sent', now' := RunPass(cfg, table, provider, text, sent, now);
    if hit.Some? {
      return Some(Done(hit.value.text, hit.value.cell)), sent', now';
    }
    var any := table.AnyKeyAvailable(cfg.models, cfg.keyCount, now');
    if !any {
      if cfg.watchMode {
        now' := WaitForQuotaReset(table, now', cfg.utcOffset);
      } else {
        return Some(Exhausted), sent', now';
      }
    } else {
      now' := now' + RescanPause;
    }
    outcome := None;
  }

  /**
   * `translate_batch(texts)`: returns the first answer found, in the order of
   * `Rounds`, with the matrix, the number of requests and the clock it leaves.
   */
  method TranslateBatch(texts: seq<string>, cfg: Config, table: CooldownTable, provider: Provider,
                        sent: nat, now: nat, fuel: nat)
    returns (outcome: Outcome, sent': nat, now': nat)
    requires table.cooldownSeconds == cfg.cooldownSeconds
    modifies table
    ensures Run(outcome, table.expiry, sent', now') ==
            Rounds(cfg, provider, Join(texts, '\n'), old(table.expiry), sent, now, fuel)
  {
    var text := Join(texts, '\n');
    sent', now' := sent, now;
    var rounds := fuel;
    while rounds > 0
      invariant Rounds(cfg, provider, text, table.expiry, sent', now', rounds) ==
                Rounds(cfg, provider, text, old(table.expiry), sent, now, fuel)
      decreases rounds
    {
      var finished;
      finished, sent', now' := RunRound(cfg, table, provider, text, sent', now');
      if finished.Some? {
        return finished.value, sent', now';
      }
      rounds := rounds - 1;
    }
    outcome := OutOfRounds;
  }
}
