/**
 * The dispatcher: the priority-ordered converter list, the stream-info
 * guesses, the nested trial loop over guesses and converters, the Korean
 * post-processing and the report of supported formats.
 *
 * Converters are values (`Converter`): their kind, an identity standing for
 * the Python object. What a
 * converter's `accepts`, `convert` and `get_format_info` do is given by an
 * `Engine`; each call sees the shared stream's bytes and the position the
 * previous call left, and reports the position it leaves, since the loop
 * never rewinds the stream between attempts.
 */
module MarkItDown {
  import opened Wrappers
  import opened Strings
  import opened StreamInfos
  import opened Dicts
  import opened Streams
  import opened BaseConverter
  import FileDetector
  import StreamUtils
  import FormatUtils
  import TextConverter
  import PdfConverter
  import DocxConverter
  import ImageConverter
  import HtmlConverter
  import AudioConverter
  import Uris
  import opened Registry

  // ================================================================ the built-in converters and plugins

  const TextPriority: real := 10.0
  const PdfPriority: real := 0.0
  const DocxPriority: real := 0.1
  const ImagePriority: real := 1.0
  const HtmlPriority: real := 2.0
  const AudioPriority: real := 3.0
  const PluginPriority: real := 0.5

  const TextReg: Registration := Registration(Converter(TextKind, 0), TextPriority)
  const PdfReg: Registration := Registration(Converter(PdfKind, 1), PdfPriority)
  const DocxReg: Registration := Registration(Converter(DocxKind, 2), DocxPriority)
  const ImageReg: Registration := Registration(Converter(ImageKind, 3), ImagePriority)
  const HtmlReg: Registration := Registration(Converter(HtmlKind, 4), HtmlPriority)
  const AudioReg: Registration := Registration(Converter(AudioKind, 5), AudioPriority)

  /** A one-entry list when `present`, else empty. */
  function Optional(present: bool, r: Registration): seq<Registration>
  {
    if present then [r] else []
  }

  /**
   * The registrations `_register_converters` makes, in its order (Text
   * first); a converter whose module cannot be imported is skipped.
   */
  function BuiltinRegistrations(enableBuiltins: bool, importable: Kind -> bool): seq<Registration>
  {
    if !enableBuiltins then []
    else
      Optional(importable(TextKind), TextReg)
      + Optional(importable(PdfKind), PdfReg)
      + Optional(importable(DocxKind), DocxReg)
      + Optional(importable(ImageKind), ImageReg)
      + Optional(importable(HtmlKind), HtmlReg)
      + Optional(importable(AudioKind), AudioReg)
  }

  /** The registrations `_load_plugins` makes: every loaded plugin at priority 0.5, in load order. */
  function PluginRegistrations(plugins: seq<Converter>): (r: seq<Registration>)
    ensures |r| == |plugins|
    ensures forall i :: 0 <= i < |r| ==> r[i] == Registration(plugins[i], PluginPriority)
    ensures forall x | x in r :: x.priority == PluginPriority
  {
    seq(|plugins|, i requires 0 <= i < |plugins| => Registration(plugins[i], PluginPriority))
  }

  /** Loading one more plugin adds its registration at the end. */
  lemma PluginRegistrationsSnoc(ps: seq<Converter>, i: nat)
    requires i < |ps|
    ensures PluginRegistrations(ps[..i + 1]) == PluginRegistrations(ps[..i]) + [Registration(ps[i], PluginPriority)]
  {
  }

  /**
   * With every built-in importable the list is PDF, DOCX, image, HTML,
   * audio, text, although text is registered first.
   */
  lemma BuiltinOrder()
    ensures InsertAll([], BuiltinRegistrations(true, _ => true))
      == [PdfReg, DocxReg, ImageReg, HtmlReg, AudioReg, TextReg]
  {
    assert BuiltinRegistrations(true, _ => true)
      == [TextReg, PdfReg, DocxReg, ImageReg, HtmlReg, AudioReg];
    SixInOrder(TextReg, PdfReg, DocxReg, ImageReg, HtmlReg, AudioReg);
  }

  /**
   * The constructor's list when every built-in is importable: plugins, all
   * at 0.5, land after PDF and DOCX and before the image converter, in the
   * order they were loaded.
   */
  lemma RegistryOrder(plugins: seq<Converter>)
    ensures InsertAll(InsertAll([], BuiltinRegistrations(true, _ => true)), PluginRegistrations(plugins))
      == [PdfReg, DocxReg] + PluginRegistrations(plugins) + [ImageReg, HtmlReg, AudioReg, TextReg]
  {
    var head := [PdfReg, DocxReg];
    var tail := [ImageReg, HtmlReg, AudioReg, TextReg];
    calc {
      InsertAll(InsertAll([], BuiltinRegistrations(true, _ => true)), PluginRegistrations(plugins));
    == { BuiltinOrder(); SplitSix(PdfReg, DocxReg, ImageReg, HtmlReg, AudioReg, TextReg); }
      InsertAll(head + tail, PluginRegistrations(plugins));
    == { InsertRun(head, tail, PluginRegistrations(plugins), PluginPriority); }
      head + PluginRegistrations(plugins) + tail;
    }
  }

  /** A list of six, split after the second. */
  lemma SplitSix(a: Registration, b: Registration, c: Registration, d: Registration, e: Registration, f: Registration)
    ensures [a, b] + [c, d, e, f] == [a, b, c, d, e, f]
  {
  }

  // ================================================================ what converters do

  /** The outcome of a converter call and the stream position it leaves. */
  datatype Step<T> = Step(outcome: Outcome<T>, pos: nat)

  /** A conversion that was attempted and raised. */
  datatype FailedAttempt = FailedAttempt(converter: string, info: StreamInfo, error: Exception)

  /**
   * The behaviour of the registered converters on a stream's bytes: the
   * third-party libraries and plugins behind them, and the text of the
   * error message (`str` of the guesses and failures) are given.
   */
  datatype Engine = Engine(
    accepts: (Converter, StreamInfo, seq<byte>, nat) -> Step<bool>,
    convert: (Converter, StreamInfo, seq<byte>, nat) -> Step<DocumentConverterResult>,
    formatInfo: Converter -> BaseConverter.FormatInfo,
    describeGuesses: seq<StreamInfo> -> string,
    describeFailures: seq<FailedAttempt> -> string)

  /**
   * An engine whose built-in PDF converter answers `accepts` as
   * `PdfConverter.Accepts` does, without touching the stream (the other
   * built-ins' `accepts` are modelled in their modules alike).
   */
  ghost predicate PdfFaithful(e: Engine)
  {
    forall c: Converter, g: StreamInfo, data: seq<byte>, p: nat | c.kind == PdfKind ::
      e.accepts(c, g, data, p) == Step(Returned(PdfConverter.Accepts(g)), p)
  }

  // ================================================================ the trial loop

  /** What trying one (guess, converter) pair gave. */
  datatype Attempt = Succeeded(result: DocumentConverterResult) | Declined | Failed(error: Exception)

  datatype Tried = Tried(attempt: Attempt, pos: nat)

  /**
   * One iteration of the inner loop: `accepts`, then `convert` when it
   * accepted, each starting where the previous call left the stream.
   */
  function TryPair(e: Engine, data: seq<byte>, g: StreamInfo, c: Converter, pos: nat): (t: Tried)
    ensures t.attempt.Succeeded? ==>
      var a := e.accepts(c, g, data, pos);
      a.outcome == Returned(true) && e.convert(c, g, data, a.pos) == Step(Returned(t.attempt.result), t.pos)
  {
    var a := e.accepts(c, g, data, pos);
    if a.outcome.Raised? then Tried(Failed(a.outcome.error), a.pos)
    else if !a.outcome.value then Tried(Declined, a.pos)
    else
      var v := e.convert(c, g, data, a.pos);
      if v.outcome.Raised? then Tried(Failed(v.outcome.error), v.pos)
      else Tried(Succeeded(v.outcome.value), v.pos)
  }

  /** The pairs one guess is tried with: every registered converter, in list order. */
  function Row(g: StreamInfo, regs: seq<Registration>): (r: seq<(StreamInfo, Converter)>)
    ensures |r| == |regs|
    ensures forall j :: 0 <= j < |regs| ==> r[j] == (g, regs[j].converter)
  {
    seq(|regs|, j requires 0 <= j < |regs| => (g, regs[j].converter))
  }

  /** All pairs in the loop's order: guesses outside, converters inside. */
  function Pairs(guesses: seq<StreamInfo>, regs: seq<Registration>): seq<(StreamInfo, Converter)>
    decreases |guesses|
  {
    if guesses == [] then [] else Row(guesses[0], regs) + Pairs(guesses[1..], regs)
  }

  /** The index of row `i`, column `j` in a grid of `m` rows of `n`, laid out row by row. */
  function Cell(i: nat, j: nat, n: nat, m: nat): (c: nat)
    requires i < m && j < n
    ensures c < m * n
  {
    GridBound(i, j, n, m);
    i * n + j
  }

  lemma GridBound(i: nat, j: nat, n: nat, m: nat)
    requires i < m && j < n
    ensures i * n + j < m * n
  {
    RowsBelow(i + 1, m, n);
    MulSucc(i, n);
  }

  /** One more row adds `n` cells. */
  lemma MulSucc(i: nat, n: nat)
    ensures (i + 1) * n == i * n + n
  {
  }

  /** Fewer rows of `n` cells never hold more cells. */
  lemma {:induction false} RowsBelow(a: nat, b: nat, n: nat)
    requires a <= b
    ensures a * n <= b * n
    decreases b - a
  {
    if a < b {
      RowsBelow(a + 1, b, n);
      MulSucc(a, n);
    }
  }

  /** Dropping the first row moves every later cell back by `n`. */
  lemma CellShift(i: nat, j: nat, n: nat, m: nat)
    requires 0 < i < m && j < n
    ensures Cell(i, j, n, m) == n + Cell(i - 1, j, n, m - 1)
    ensures m * n == n + (m - 1) * n
  {
    MulSucc(i - 1, n);
    MulSucc(m - 1, n);
  }

  /** Pair `Cell(i, j, ...)` is guess `i` with converter `j`: guesses outside, converters inside. */
  lemma {:induction false} PairsIndex(guesses: seq<StreamInfo>, regs: seq<Registration>)
    ensures |Pairs(guesses, regs)| == |guesses| * |regs|
    ensures forall i, j :: 0 <= i < |guesses| && 0 <= j < |regs| ==>
      Pairs(guesses, regs)[Cell(i, j, |regs|, |guesses|)] == (guesses[i], regs[j].converter)
    decreases |guesses|
  {
    if guesses != [] {
      var n := |regs|;
      var m := |guesses|;
      var row := Row(guesses[0], regs);
      var rest := Pairs(guesses[1..], regs);
      PairsIndex(guesses[1..], regs);
      MulSucc(m - 1, n);
      forall i, j | 0 <= i < m && 0 <= j < n
        ensures Pairs(guesses, regs)[Cell(i, j, n, m)] == (guesses[i], regs[j].converter)
      {
        if i > 0 {
          var k := Cell(i - 1, j, n, m - 1);
          CellShift(i, j, n, m);
          assert (row + rest)[n + k] == rest[k];
          assert guesses[1..][i - 1] == guesses[i];
        } else {
          assert Cell(i, j, n, m) == j;
        }
      }
    }
  }

  /** The loop's state when it ends: a result and the position, or the position and the recorded failures. */
  datatype Search = Won(result: DocumentConverterResult, pos: nat) | Exhausted(pos: nat, failures: seq<FailedAttempt>)

  /** The trial loop over `pairs`, from the stream position `pos` with `failures` recorded so far. */
  function TryPairs(e: Engine, data: seq<byte>, pairs: seq<(StreamInfo, Converter)>, pos: nat,
                    failures: seq<FailedAttempt>): Search
    decreases |pairs|
  {
    if pairs == [] then Exhausted(pos, failures)
    else
      var t := TryPair(e, data, pairs[0].0, pairs[0].1, pos);
      match t.attempt
      case Succeeded(r) => Won(r, t.pos)
      case Declined => TryPairs(e, data, pairs[1..], t.pos, failures)
      case Failed(err) =>
        TryPairs(e, data, pairs[1..], t.pos, failures + [FailedAttempt(ClassName(pairs[0].1), pairs[0].0, err)])
  }

  /**
   * A result is always the result of some pair's `convert`, called after
   * that pair's `accepts` said yes.
   */
  lemma {:induction false} WonByConvert(e: Engine, data: seq<byte>, pairs: seq<(StreamInfo, Converter)>, pos: nat,
                                        failures: seq<FailedAttempt>)
    ensures var s := TryPairs(e, data, pairs, pos, failures);
      s.Won? ==> exists k, q :: 0 <= k < |pairs| && TryPair(e, data, pairs[k].0, pairs[k].1, q) == Tried(Succeeded(s.result), s.pos)
    decreases |pairs|
  {
    if pairs != [] {
      var t := TryPair(e, data, pairs[0].0, pairs[0].1, pos);
      var s := TryPairs(e, data, pairs, pos, failures);
      if t.attempt.Succeeded? {
        assert TryPair(e, data, pairs[0].0, pairs[0].1, pos) == Tried(Succeeded(s.result), s.pos);
      } else {
        var f := if t.attempt.Failed? then failures + [FailedAttempt(ClassName(pairs[0].1), pairs[0].0, t.attempt.error)] else failures;
        WonByConvert(e, data, pairs[1..], t.pos, f);
        if s.Won? {
          var k, q :| 0 <= k < |pairs[1..]| && TryPair(e, data, pairs[1..][k].0, pairs[1..][k].1, q) == Tried(Succeeded(s.result), s.pos);
          assert pairs[1..][k] == pairs[k + 1];
        }
      }
    }
  }

  /**
   * When the loop runs out, the failures recorded so far are kept, and each
   * new one names a converter and a guess of some pair.
   */
  lemma {:induction false} FailuresRecorded(e: Engine, data: seq<byte>, pairs: seq<(StreamInfo, Converter)>, pos: nat,
                                            failures: seq<FailedAttempt>)
    ensures var s := TryPairs(e, data, pairs, pos, failures);
      s.Exhausted? ==>
        && |failures| <= |s.failures| <= |failures| + |pairs|
        && s.failures[..|failures|] == failures
        && forall i :: |failures| <= i < |s.failures| ==>
             exists k :: 0 <= k < |pairs| && s.failures[i].info == pairs[k].0 && s.failures[i].converter == ClassName(pairs[k].1)
    decreases |pairs|
  {
    if pairs != [] {
      var t := TryPair(e, data, pairs[0].0, pairs[0].1, pos);
      var s := TryPairs(e, data, pairs, pos, failures);
      if !t.attempt.Succeeded? {
        var f := if t.attempt.Failed? then failures + [FailedAttempt(ClassName(pairs[0].1), pairs[0].0, t.attempt.error)] else failures;
        FailuresRecorded(e, data, pairs[1..], t.pos, f);
        if s.Exhausted? {
          assert s.failures[..|f|] == f;
          assert s.failures[..|failures|] == f[..|failures|];
          forall i | |failures| <= i < |s.failures|
            ensures exists k :: 0 <= k < |pairs| && s.failures[i].info == pairs[k].0 && s.failures[i].converter == ClassName(pairs[k].1)
          {
            if i < |f| {
              assert s.failures[i] == f[i];
            } else {
              var k :| 0 <= k < |pairs[1..]| && s.failures[i].info == pairs[1..][k].0 && s.failures[i].converter == ClassName(pairs[1..][k].1);
              assert pairs[1..][k] == pairs[k + 1];
            }
          }
        }
      }
    }
  }

  /** Converters that leave the stream where they found it. */
  ghost predicate KeepsPosition(e: Engine, data: seq<byte>)
  {
    (forall c, g, p :: e.accepts(c, g, data, p).pos == p)
    && (forall c, g, p :: e.convert(c, g, data, p).pos == p)
  }

  predicate Succeeds(e: Engine, data: seq<byte>, pair: (StreamInfo, Converter), pos: nat)
  {
    TryPair(e, data, pair.0, pair.1, pos).attempt.Succeeded?
  }

  /**
   * With converters that leave the stream where they found it, the loop
   * yields exactly the first pair whose `accepts` says yes and whose
   * `convert` returns; it runs out exactly when no pair does.
   */
  lemma {:induction false} FirstSuccess(e: Engine, data: seq<byte>, pairs: seq<(StreamInfo, Converter)>, pos: nat,
                                        failures: seq<FailedAttempt>)
    requires KeepsPosition(e, data)
    ensures var s := TryPairs(e, data, pairs, pos, failures);
      && (s.Exhausted? <==> forall k :: 0 <= k < |pairs| ==> !Succeeds(e, data, pairs[k], pos))
      && (s.Won? ==> exists k :: (0 <= k < |pairs|
            && TryPair(e, data, pairs[k].0, pairs[k].1, pos).attempt == Succeeded(s.result)
            && forall j :: 0 <= j < k ==> !Succeeds(e, data, pairs[j], pos)))
    decreases |pairs|
  {
    if pairs != [] {
      var t := TryPair(e, data, pairs[0].0, pairs[0].1, pos);
      assert t.pos == pos;
      var s := TryPairs(e, data, pairs, pos, failures);
      if !t.attempt.Succeeded? {
        var f := if t.attempt.Failed? then failures + [FailedAttempt(ClassName(pairs[0].1), pairs[0].0, t.attempt.error)] else failures;
        FirstSuccess(e, data, pairs[1..], pos, f);
        assert forall k :: 1 <= k < |pairs| ==> pairs[k] == pairs[1..][k - 1];
        if s.Won? {
          var k :| 0 <= k < |pairs[1..]|
            && TryPair(e, data, pairs[1..][k].0, pairs[1..][k].1, pos).attempt == Succeeded(s.result)
            && forall j :: 0 <= j < k ==> !Succeeds(e, data, pairs[1..][j], pos);
          assert forall j :: 0 <= j < k + 1 ==> !Succeeds(e, data, pairs[j], pos);
        }
      }
    }
  }

  /** Without any pair the loop records nothing. */
  lemma {:induction false} NoPairs(guesses: seq<StreamInfo>)
    ensures Pairs(guesses, []) == []
    decreases |guesses|
  {
    if guesses != [] {
      NoPairs(guesses[1..]);
    }
  }

  // ================================================================ post-processing and the result

  /**
   * `_apply_korean_optimization`: with Korean support the markdown goes
   * through `normalize_korean_spacing`; the title and metadata are carried
   * over.
   */
  function ApplyKoreanOptimization(enabled: bool, r: DocumentConverterResult): DocumentConverterResult
  {
    if !enabled then r
    else DocumentConverterResult(FormatUtils.KoreanSpacing(r.markdown), r.title, r.metadata)
  }

  /**
   * A value `set_options` may store: `set_options(**kwargs)` accepts any
   * object, and the dispatch only asks whether it is truthy. `Other` is an
   * object of any further type, with the answer its `__bool__` or
   * `__len__` gives.
   */
  datatype OptionValue = Flag(b: bool) | Number(n: int) | Text(s: string) | NoValue | Other(truthy: bool)
  {
    /** Python's truth value of the option. */
    predicate Truthy()
    {
      match this
      case Flag(b) => b
      case Number(n) => n != 0
      case Text(s) => s != []
      case NoValue => false
      case Other(truthy) => truthy
    }
  }

  /** `self._options.get('korean_optimization')` is truthy; a missing key reads as `None`. */
  predicate KoreanOptimization(options: Dict<string, OptionValue>)
  {
    var v := Get(options, "korean_optimization");
    v.Some? && v.value.Truthy()
  }

  /**
   * After `set_options`, Korean optimisation is on exactly when the last
   * `korean_optimization` keyword given is truthy, whatever its type.
   */
  lemma SetOptionsKoreanOptimization(options: Dict<string, OptionValue>, kwargs: seq<(string, OptionValue)>, i: nat)
    requires i < |kwargs| && kwargs[i].0 == "korean_optimization"
    requires forall j :: i < j < |kwargs| ==> kwargs[j].0 != "korean_optimization"
    ensures KoreanOptimization(Update(options, kwargs)) <==> kwargs[i].1.Truthy()
  {
    UpdateLast(options, kwargs, i);
  }

  /** What the loop returns on success: the result, optimised when the option is set. */
  function PostProcess(optimize: bool, enabled: bool, r: DocumentConverterResult): DocumentConverterResult
  {
    if optimize then ApplyKoreanOptimization(enabled, r) else r
  }

  /**
   * The markdown changes only when both the option and Korean support are
   * on, and then only by deleting white space; title and metadata never
   * change.
   */
  lemma PostProcessSpec(optimize: bool, enabled: bool, r: DocumentConverterResult)
    ensures var o := PostProcess(optimize, enabled, r);
      && o.title == r.title && o.metadata == r.metadata
      && (!(optimize && enabled) ==> o == r)
      && (optimize && enabled ==> o.markdown == FormatUtils.KoreanSpacing(r.markdown))
  {
  }

  /** Post-processing never adds text and keeps every character that is not white space. */
  lemma PostProcessKeepsText(optimize: bool, enabled: bool, r: DocumentConverterResult)
    ensures |PostProcess(optimize, enabled, r).markdown| <= |r.markdown|
    ensures FormatUtils.NonSpace(PostProcess(optimize, enabled, r).markdown) == FormatUtils.NonSpace(r.markdown)
  {
    FormatUtils.KoreanSpacingKeeps(r.markdown);
  }

  /** The message of the `UnsupportedFormatException` raised when every pair declined or failed. */
  function NoConverterMessage(e: Engine, guesses: seq<StreamInfo>, failures: seq<FailedAttempt>): (m: string)
    ensures StartsWith(m, "No suitable converter found for stream")
  {
    var head := "No suitable converter found for stream";
    var m := head
      + (if guesses != [] then " (guessed types: " + e.describeGuesses(guesses) + ")" else "")
      + (if failures != [] then "\\nFailed attempts: " + e.describeFailures(failures) else "");
    assert m[..|head|] == head;
    m
  }

  /**
   * `_convert_with_guesses`: the outcome and the position the stream is
   * left at. An exception from a converter never escapes: the only one
   * raised is `UnsupportedFormatException`.
   */
  function ConvertWithGuessesSpec(e: Engine, data: seq<byte>, pos: nat, optimize: bool, enabled: bool,
                                  regs: seq<Registration>, guesses: seq<StreamInfo>): (r: (Outcome<DocumentConverterResult>, nat))
    ensures r.0.Raised? ==> r.0.error.UnsupportedFormatException?
  {
    match TryPairs(e, data, Pairs(guesses, regs), pos, [])
    case Won(result, p) => (Returned(PostProcess(optimize, enabled, result)), p)
    case Exhausted(p, failures) => (Raised(UnsupportedFormatException(NoConverterMessage(e, guesses, failures))), p)
  }

  /** With no converter registered, every call raises `UnsupportedFormatException`, with no failures listed. */
  lemma NoConverters(e: Engine, data: seq<byte>, pos: nat, optimize: bool, enabled: bool, guesses: seq<StreamInfo>)
    ensures ConvertWithGuessesSpec(e, data, pos, optimize, enabled, [], guesses)
      == (Raised(UnsupportedFormatException(NoConverterMessage(e, guesses, []))), pos)
  {
    NoPairs(guesses);
  }

  /**
   * With the built-ins registered in their order and the PDF converter's
   * `accepts` as modelled, a first guess the PDF converter accepts goes to
   * it: whatever its `convert` returns is the result.
   */
  lemma PdfTriedFirst(e: Engine, data: seq<byte>, pos: nat, optimize: bool, ks: bool, regs: seq<Registration>,
                      guesses: seq<StreamInfo>)
    requires PdfFaithful(e)
    requires regs != [] && regs[0] == PdfReg && guesses != [] && PdfConverter.Accepts(guesses[0])
    requires e.convert(PdfReg.converter, guesses[0], data, pos).outcome.Returned?
    ensures var v := e.convert(PdfReg.converter, guesses[0], data, pos);
      ConvertWithGuessesSpec(e, data, pos, optimize, ks, regs, guesses)
        == (Returned(PostProcess(optimize, ks, v.outcome.value)), v.pos)
  {
    var pairs := Pairs(guesses, regs);
    assert pairs[0] == Row(guesses[0], regs)[0] == (guesses[0], PdfReg.converter);
  }

  // ================================================================ stream-info guesses

  /** No guess so far is `StreamInfo`-equal to `x`. */
  predicate New(guesses: seq<StreamInfo>, x: StreamInfo)
  {
    forall i :: 0 <= i < |guesses| ==> !Equal(guesses[i], x)
  }

  /** No two guesses are `StreamInfo`-equal. */
  predicate Distinct(guesses: seq<StreamInfo>)
  {
    forall i, j :: 0 <= i < j < |guesses| ==> !Equal(guesses[i], guesses[j])
  }

  /** `if guess and guess not in guesses: guesses.append(guess)`; a `StreamInfo` object is always truthy. */
  function AddGuess(guesses: seq<StreamInfo>, guess: Option<StreamInfo>): seq<StreamInfo>
  {
    if guess.Some? && New(guesses, guess.value) then guesses + [guess.value] else guesses
  }

  /** The candidates offered, in order. */
  function AddGuesses(guesses: seq<StreamInfo>, candidates: seq<Option<StreamInfo>>): seq<StreamInfo>
    decreases |candidates|
  {
    if candidates == [] then guesses else AddGuesses(AddGuess(guesses, candidates[0]), candidates[1..])
  }

  /**
   * Offering candidates only appends, never repeats a guess, and appends
   * only candidates offered; a candidate that is new is taken.
   */
  lemma {:induction false} AddGuessesSpec(guesses: seq<StreamInfo>, candidates: seq<Option<StreamInfo>>)
    ensures var r := AddGuesses(guesses, candidates);
      && |guesses| <= |r| && r[..|guesses|] == guesses
      && (Distinct(guesses) ==> Distinct(r))
      && (forall i :: |guesses| <= i < |r| ==> Some(r[i]) in candidates)
      && (candidates != [] && candidates[0].Some? && New(guesses, candidates[0].value) ==>
           |guesses| < |r| && r[|guesses|] == candidates[0].value)
    decreases |candidates|
  {
    if candidates != [] {
      var g := AddGuess(guesses, candidates[0]);
      var r := AddGuesses(guesses, candidates);
      AddGuessesSpec(g, candidates[1..]);
      assert r[..|guesses|] == g[..|guesses|] == guesses;
      forall i | |guesses| <= i < |r| ensures Some(r[i]) in candidates {
        if i < |g| {
          assert r[i] == g[i] == candidates[0].value;
        } else {
          assert Some(r[i]) in candidates[1..];
        }
      }
    }
  }

  /** What `detect_from_stream` finds in a seekable stream holding `data`. */
  function ContentGuess(d: FileDetector.FileTypeDetector, data: seq<byte>): Option<StreamInfo>
    requires d.Valid()
  {
    if d.magic.None? then None else FileDetector.FromHeader(d, d.magic.value, FileDetector.Head(data))
  }

  /** The caller's info, when it has a MIME type or an extension. */
  function BaseGuesses(base: StreamInfo): seq<StreamInfo>
  {
    if Truthy(base.mimetype) || Truthy(base.extension) then [base] else []
  }

  /** What the content, the filename, the extension and the MIME type suggest, in that order. */
  function Detected(d: FileDetector.FileTypeDetector, base: StreamInfo, content: Option<StreamInfo>): seq<Option<StreamInfo>>
    requires d.Valid()
  {
    [ content,
      if Truthy(base.filename) then FileDetector.DetectFromFilename(d, base.filename.value) else None,
      if Truthy(base.extension) then FileDetector.DetectFromExtension(d, base.extension.value) else None,
      if Truthy(base.mimetype) then FileDetector.DetectFromMimetype(d, base.mimetype.value) else None ]
  }

  /**
   * `_get_stream_info_guesses` on a seekable stream: the caller's info when
   * it has a MIME type or an extension, then what the content, the
   * filename, the extension and the MIME type suggest, each only when new;
   * an empty info when nothing was found.
   */
  function Guesses(d: FileDetector.FileTypeDetector, base: StreamInfo, content: Option<StreamInfo>): seq<StreamInfo>
    requires d.Valid()
  {
    var g := AddGuesses(BaseGuesses(base), Detected(d, base, content));
    if g == [] then [Empty()] else g
  }

  /**
   * The guesses are never empty; the caller's info comes first whenever it
   * has a MIME type or an extension, and otherwise the content's guess when
   * there is one.
   */
  lemma GuessesFirst(d: FileDetector.FileTypeDetector, base: StreamInfo, content: Option<StreamInfo>)
    requires d.Valid()
    ensures var r := Guesses(d, base, content);
      && r != []
      && ((Truthy(base.mimetype) || Truthy(base.extension)) ==> r[0] == base)
      && (!(Truthy(base.mimetype) || Truthy(base.extension)) && content.Some? ==> r[0] == content.value)
  {
    var b := BaseGuesses(base);
    var cands := Detected(d, base, content);
    AddGuessesSpec(b, cands);
    assert cands[0] == content;
  }

  /** No two guesses are `StreamInfo`-equal. */
  lemma GuessesDistinct(d: FileDetector.FileTypeDetector, base: StreamInfo, content: Option<StreamInfo>)
    requires d.Valid()
    ensures Distinct(Guesses(d, base, content))
  {
    AddGuessesSpec(BaseGuesses(base), Detected(d, base, content));
  }

  /** Every guess is the caller's info, `StreamInfo()` or one of the detected candidates. */
  lemma GuessesFrom(d: FileDetector.FileTypeDetector, base: StreamInfo, content: Option<StreamInfo>)
    requires d.Valid()
    ensures var r := Guesses(d, base, content);
      forall i :: 0 <= i < |r| ==> r[i] == base || r[i] == Empty() || Some(r[i]) in Detected(d, base, content)
  {
    var b := BaseGuesses(base);
    var cands := Detected(d, base, content);
    AddGuessesSpec(b, cands);
    var g := AddGuesses(b, cands);
    var r := Guesses(d, base, content);
    forall i | 0 <= i < |r| ensures r[i] == base || r[i] == Empty() || Some(r[i]) in cands {
      if g != [] && i < |b| {
        assert r[i] == b[i];
      }
    }
  }

  // ================================================================ supported formats and document type

  /** The categories `get_supported_formats` reports, in its order. */
  const Categories: seq<string> := ["documents", "images", "audio", "web", "data", "archives"]

  /** The format infos of the listed converters in `category`, in list order. */
  function FormatsIn(e: Engine, regs: seq<Registration>, category: string): seq<BaseConverter.FormatInfo>
    decreases |regs|
  {
    if regs == [] then []
    else
      var front := FormatsIn(e, regs[..|regs| - 1], category);
      var info := e.formatInfo(regs[|regs| - 1].converter);
      if info.category == category then front + [info] else front
  }

  /** Every listed format info comes from a registered converter and belongs to the category. */
  lemma {:induction false} FormatsInSpec(e: Engine, regs: seq<Registration>, category: string)
    ensures |FormatsIn(e, regs, category)| <= |regs|
    ensures forall f | f in FormatsIn(e, regs, category) ::
      f.category == category && exists i :: 0 <= i < |regs| && e.formatInfo(regs[i].converter) == f
    decreases |regs|
  {
    if regs != [] {
      var front := regs[..|regs| - 1];
      FormatsInSpec(e, front, category);
      forall f | f in FormatsIn(e, front, category)
        ensures exists i :: 0 <= i < |regs| && e.formatInfo(regs[i].converter) == f
      {
        var i :| 0 <= i < |front| && e.formatInfo(front[i].converter) == f;
        assert regs[i] == front[i];
      }
    }
  }

  /**
   * `_detect_document_type`: the first of many table bars, code fences,
   * images and links that applies, else a plain document.
   */
  function DocumentType(markdown: string): (t: string)
    ensures t == "document" <==>
      (CountChar(markdown, '|') <= 20 && Count(markdown, "```") <= 5
       && Count(markdown, "![") <= 5 && Count(markdown, "](") <= 10)
    ensures t == "spreadsheet" <==> CountChar(markdown, '|') > 20
  {
    if CountChar(markdown, '|') > 20 then "spreadsheet"
    else if Count(markdown, "```") > 5 then "technical"
    else if Count(markdown, "![") > 5 then "presentation"
    else if Count(markdown, "](") > 10 then "webpage"
    else "document"
  }

  // ================================================================ the dispatcher object

  /** The options a new `MarkItDown` starts with. */
  const DefaultOptions: Dict<string, OptionValue> :=
    [("include_metadata", Flag(false)), ("extract_images", Flag(false)), ("korean_optimization", Flag(false))]

  /** What `convert_stream` works on: the buffered bytes and the start position. */
  function Buffered(data: seq<byte>, pos: nat, seekable: bool): (seq<byte>, nat)
  {
    if seekable then (data, pos)
    else
      var remaining := if pos <= |data| then data[pos..] else [];
      (remaining[..StreamUtils.CappedLength(|remaining|, StreamUtils.DefaultMaxSize)], 0)
  }

  class MarkItDown {
    /** `_converters`, in the order they are tried. */
    var converters: seq<Registration>
    /** `_options` */
    var options: Dict<string, OptionValue>
    const enableKoreanSupport: bool
    const engine: Engine
    const detector: FileDetector.FileTypeDetector

    ghost predicate Valid()
      reads this
    {
      Sorted(converters) && detector.Valid()
    }

    /**
     * `MarkItDown(...)`: the built-ins whose modules import, then, with
     * plugins enabled and the plugin system importable, the plugins
     * `load_plugins` returned, each at priority 0.5. The file-type detector
     * is passed in already built (`FileDetector.NewDetector`).
     */
    constructor (enableBuiltins: bool, enablePlugins: bool, enableKoreanSupport: bool,
                 importable: Kind -> bool, plugins: Option<seq<Converter>>,
                 detector: FileDetector.FileTypeDetector, engine: Engine)
      requires detector.Valid()
      ensures this.enableKoreanSupport == enableKoreanSupport && this.engine == engine && this.detector == detector
      ensures Valid()
      ensures converters == InsertAll(InsertAll([], BuiltinRegistrations(enableBuiltins, importable)),
                                      if enablePlugins && plugins.Some? then PluginRegistrations(plugins.value) else [])
      ensures options == DefaultOptions
    {
      converters := [];
      options := DefaultOptions;
      this.enableKoreanSupport := enableKoreanSupport;
      this.engine := engine;
      this.detector := detector;
      new;
      Populate(enableBuiltins, enablePlugins, importable, plugins);
    }

    /** The registration steps of `MarkItDown(...)`: the built-ins, then the plugins when enabled. */
    method Populate(enableBuiltins: bool, enablePlugins: bool, importable: Kind -> bool, plugins: Option<seq<Converter>>)
      requires Valid()
      modifies this`converters
      ensures Valid()
      ensures converters == InsertAll(InsertAll(old(converters), BuiltinRegistrations(enableBuiltins, importable)),
                                      if enablePlugins && plugins.Some? then PluginRegistrations(plugins.value) else [])
    {
      RegisterConverters(enableBuiltins, importable);
      if enablePlugins {
        LoadPlugins(plugins);
      } else {
        assert converters == InsertAll(converters, []);
      }
    }

    /** `_register_converters`: the built-ins, Text first, each only when its module imports. */
    method RegisterConverters(enableBuiltins: bool, importable: Kind -> bool)
      requires Valid()
      modifies this`converters
      ensures Valid()
      ensures converters == InsertAll(old(converters), BuiltinRegistrations(enableBuiltins, importable))
    {
      if !enableBuiltins {
        return;
      }
      ghost var c0 := converters;
      RegisterIfImportable(importable(TextKind), TextReg);
      ghost var c1 := converters;
      RegisterIfImportable(importable(PdfKind), PdfReg);
      ghost var c2 := converters;
      RegisterIfImportable(importable(DocxKind), DocxReg);
      ghost var c3 := converters;
      RegisterIfImportable(importable(ImageKind), ImageReg);
      ghost var c4 := converters;
      RegisterIfImportable(importable(HtmlKind), HtmlReg);
      ghost var c5 := converters;
      RegisterIfImportable(importable(AudioKind), AudioReg);
      assert converters == InsertAll(c0, BuiltinRegistrations(enableBuiltins, importable)) by {
        var o1, o2, o3 := Optional(importable(TextKind), TextReg), Optional(importable(PdfKind), PdfReg), Optional(importable(DocxKind), DocxReg);
        var o4, o5, o6 := Optional(importable(ImageKind), ImageReg), Optional(importable(HtmlKind), HtmlReg), Optional(importable(AudioKind), AudioReg);
        InsertAllAppend(c0, o1, o2);
        InsertAllAppend(c0, o1 + o2, o3);
        InsertAllAppend(c0, o1 + o2 + o3, o4);
        InsertAllAppend(c0, o1 + o2 + o3 + o4, o5);
        InsertAllAppend(c0, o1 + o2 + o3 + o4 + o5, o6);
      }
    }

    /** One `try: register_converter(...) except ImportError: pass` block of `_register_converters`. */
    method RegisterIfImportable(importable: bool, r: Registration)
      requires Valid()
      modifies this`converters
      ensures Valid()
      ensures converters == InsertAll(old(converters), Optional(importable, r))
    {
      if importable {
        RegisterConverter(r.converter, r.priority);
        assert [r][1..] == [];
      }
    }

    /** `_load_plugins`: every plugin returned, in order, at priority 0.5; nothing when the plugin system is missing. */
    method LoadPlugins(plugins: Option<seq<Converter>>)
      requires Valid()
      modifies this`converters
      ensures Valid()
      ensures converters == InsertAll(old(converters), if plugins.Some? then PluginRegistrations(plugins.value) else [])
    {
      if plugins.None? {
        return;
      }
      var ps := plugins.value;
      for i := 0 to |ps|
        invariant Valid()
        invariant converters == InsertAll(old(converters), PluginRegistrations(ps[..i]))
      {
        RegisterConverter(ps[i], PluginPriority);
        InsertAllSnoc(old(converters), PluginRegistrations(ps[..i]), Registration(ps[i], PluginPriority));
        PluginRegistrationsSnoc(ps, i);
      }
      assert ps[..|ps|] == ps;
    }

    /**
     * `register_converter`: scan for the first entry with a greater
     * priority and insert there, or append.
     */
    method RegisterConverter(converter: Converter, priority: real)
      requires Valid()
      modifies this`converters
      ensures Valid()
      ensures converters == Inserted(old(converters), Registration(converter, priority))
    {
      var insertPos := 0;
      var i := 0;
      while i < |converters|
        invariant i <= |converters| && insertPos == i
        invariant forall k :: 0 <= k < i ==> converters[k].priority <= priority
      {
        if converters[i].priority > priority {
          insertPos := i;
          break;
        }
        insertPos := i + 1;
        i := i + 1;
      }
      InsertPositionUnique(converters, priority, insertPos);
      InsertedSorted(converters, Registration(converter, priority));
      converters := converters[..insertPos] + [Registration(converter, priority)] + converters[insertPos..];
    }

    /** `set_options(**kwargs)`: later keywords win; other options are kept. */
    method SetOptions(kwargs: seq<(string, OptionValue)>)
      modifies this`options
      ensures options == Update(old(options), kwargs)
      ensures forall k :: (forall i :: 0 <= i < |kwargs| ==> kwargs[i].0 != k) ==> Get(options, k) == Get(old(options), k)
    {
      forall k | forall i :: 0 <= i < |kwargs| ==> kwargs[i].0 != k
        ensures Get(Update(options, kwargs), k) == Get(options, k)
      {
        UpdateUntouched(options, kwargs, k);
      }
      options := Update(options, kwargs);
    }

    /** `_get_stream_info_guesses` on a seekable stream; the stream position is restored. */
    method GetStreamInfoGuesses(stream: Stream, base: StreamInfo) returns (guesses: seq<StreamInfo>)
      requires Valid() && stream.seekable
      modifies stream`pos
      ensures stream.pos == old(stream.pos)
      ensures guesses == Guesses(detector, base, ContentGuess(detector, stream.data))
    {
      guesses := [];
      if Truthy(base.mimetype) || Truthy(base.extension) {
        guesses := guesses + [base];
      }
      ghost var g0 := guesses;
      assert g0 == BaseGuesses(base);
      var contentGuess := FileDetector.DetectFromStream(detector, stream);
      guesses := AddGuess(guesses, contentGuess);
      var fromName := if Truthy(base.filename) then FileDetector.DetectFromFilename(detector, base.filename.value) else None;
      guesses := AddGuess(guesses, fromName);
      var fromExtension := if Truthy(base.extension) then FileDetector.DetectFromExtension(detector, base.extension.value) else None;
      guesses := AddGuess(guesses, fromExtension);
      var fromMimetype := if Truthy(base.mimetype) then FileDetector.DetectFromMimetype(detector, base.mimetype.value) else None;
      guesses := AddGuess(guesses, fromMimetype);
      ghost var cands := [contentGuess, fromName, fromExtension, fromMimetype];
      assert cands == Detected(detector, base, contentGuess);
      AddFour(g0, cands);
      if guesses == [] {
        guesses := [Empty()];
      }
    }

    /**
     * `_convert_with_guesses`: every guess with every converter, in order,
     * until one accepts and converts; the stream is never rewound between
     * attempts. Returns what `ConvertWithGuessesSpec` describes and leaves
     * the stream where it says.
     */
    method ConvertWithGuesses(stream: Stream, guesses: seq<StreamInfo>) returns (r: Outcome<DocumentConverterResult>)
      modifies stream`pos
      ensures (r, stream.pos) == ConvertWithGuessesSpec(engine, stream.data, old(stream.pos), KoreanOptimization(options),
                                                        enableKoreanSupport, converters, guesses)
    {
      var data := stream.data;
      var regs := converters;
      ghost var total := TryPairs(engine, data, Pairs(guesses, regs), stream.pos, []);
      var failures: seq<FailedAttempt> := [];
      for gi := 0 to |guesses|
        invariant TryPairs(engine, data, Pairs(guesses[gi..], regs), stream.pos, failures) == total
      {
        var info := guesses[gi];
        assert Pairs(guesses[gi..], regs) == Row(info, regs[0..]) + Pairs(guesses[gi + 1..], regs) by {
          assert guesses[gi..][1..] == guesses[gi + 1..];
          assert regs[0..] == regs;
        }
        for ci := 0 to |regs|
          invariant TryPairs(engine, data, Row(info, regs[ci..]) + Pairs(guesses[gi + 1..], regs), stream.pos, failures) == total
        {
          var c := regs[ci].converter;
          ghost var pos := stream.pos;
          ghost var f := failures;
          RowStep(info, regs, ci, Pairs(guesses[gi + 1..], regs));
          var a := engine.accepts(c, info, data, stream.pos);
          stream.pos := a.pos;
          if a.outcome.Raised? {
            failures := failures + [FailedAttempt(ClassName(c), info, a.outcome.error)];
          } else if a.outcome.value {
            var v := engine.convert(c, info, data, stream.pos);
            stream.pos := v.pos;
            if v.outcome.Raised? {
              failures := failures + [FailedAttempt(ClassName(c), info, v.outcome.error)];
            } else {
              var result := v.outcome.value;
              if KoreanOptimization(options) {
                result := ApplyKoreanOptimization(enableKoreanSupport, result);
              }
              return Returned(result);
            }
          }
        }
        assert regs[|regs|..] == [];
        assert Row(info, regs[|regs|..]) + Pairs(guesses[gi + 1..], regs) == Pairs(guesses[gi + 1..], regs);
      }
      r := Raised(UnsupportedFormatException(NoConverterMessage(engine, guesses, failures)));
    }

    /** What `convert_stream` returns for a stream holding `data` at `pos`. */
    ghost function StreamResult(data: seq<byte>, pos: nat, seekable: bool, info: Option<StreamInfo>): Outcome<DocumentConverterResult>
      reads this
      requires Valid()
    {
      var (bytes, start) := Buffered(data, pos, seekable);
      var guesses := Guesses(detector, info.UnwrapOr(Empty()), ContentGuess(detector, bytes));
      ConvertWithGuessesSpec(engine, bytes, start, KoreanOptimization(options), enableKoreanSupport, converters, guesses).0
    }

    /**
     * `convert_stream`: buffer a stream that cannot seek, guess its types
     * (from `StreamInfo()` when none is given) and try the converters.
     */
    method ConvertStream(stream: Stream, info: Option<StreamInfo>) returns (r: Outcome<DocumentConverterResult>)
      requires Valid()
      modifies stream`pos
      ensures r == StreamResult(old(stream.data), old(stream.pos), stream.seekable, info)
      ensures r.Raised? ==> r.error.UnsupportedFormatException?
    {
      var s := StreamUtils.MakeStreamSeekable(stream, StreamUtils.DefaultMaxSize);
      assert (s.data, s.pos) == Buffered(old(stream.data), old(stream.pos), stream.seekable);
      var base := info.UnwrapOr(Empty());
      var guesses := GetStreamInfoGuesses(s, base);
      r := ConvertWithGuesses(s, guesses);
    }

    /**
     * `_convert_data_uri`: parse the header, decode the payload (with
     * `decode` standing for base64 and percent-decoding), and convert the
     * bytes with the media type as the MIME type.
     */
    method ConvertDataUri(uri: string, decode: (bool, string) -> Outcome<seq<byte>>) returns (r: Outcome<DocumentConverterResult>)
      requires Valid()
      ensures Uris.ParseDataUri(uri).Raised? ==> r == Raised(Uris.ParseDataUri(uri).error)
      ensures Uris.DataUriInput(uri, decode).Returned? ==>
        var (bytes, info) := Uris.DataUriInput(uri, decode).value;
        r == StreamResult(bytes, 0, true, Some(info))
    {
      var input := Uris.DataUriInput(uri, decode);
      if input.Raised? {
        return Raised(input.error);
      }
      var stream := new Stream(input.value.0, true, true);
      r := ConvertStream(stream, Some(input.value.1));
    }

    /**
     * `get_supported_formats`: the six categories, each listing the format
     * info of every converter in that category, in list order; a converter
     * of any other category is left out.
     */
    method GetSupportedFormats() returns (formats: Dict<string, seq<BaseConverter.FormatInfo>>)
      ensures Keys(formats) == Categories
      ensures forall k :: Get(formats, k) == if k in Categories then Some(FormatsIn(engine, converters, k)) else None
    {
      formats := [("documents", []), ("images", []), ("audio", []), ("web", []), ("data", []), ("archives", [])];
      NothingListed(engine);
      for i := 0 to |converters|
        invariant Listed(engine, converters[..i], formats)
      {
        var info := engine.formatInfo(converters[i].converter);
        FormatsStep(engine, converters, i, formats);
        if info.category in Categories {
          var current := Get(formats, info.category).value;
          formats := Set(formats, info.category, current + [info]);
        }
      }
      assert converters[..|converters|] == converters;
    }
  }

  /** `formats` lists, under each category, the format infos of `regs` in that category. */
  ghost predicate Listed(e: Engine, regs: seq<Registration>, formats: Dict<string, seq<BaseConverter.FormatInfo>>)
  {
    && Keys(formats) == Categories
    && forall k :: Get(formats, k) == if k in Categories then Some(FormatsIn(e, regs, k)) else None
  }

  /** Before any converter is looked at, every category lists nothing. */
  lemma NothingListed(e: Engine)
    ensures Listed(e, [], [("documents", []), ("images", []), ("audio", []), ("web", []), ("data", []), ("archives", [])])
  {
  }

  /** One converter's step of `get_supported_formats`: its info joins the list of its category, if that is listed. */
  lemma FormatsStep(e: Engine, regs: seq<Registration>, i: nat, formats: Dict<string, seq<BaseConverter.FormatInfo>>)
    requires i < |regs| && Listed(e, regs[..i], formats)
    ensures var info := e.formatInfo(regs[i].converter);
      Listed(e, regs[..i + 1], if info.category in Categories
        then Set(formats, info.category, FormatsIn(e, regs[..i], info.category) + [info]) else formats)
  {
    var info := e.formatInfo(regs[i].converter);
    assert regs[..i + 1][..i] == regs[..i];
    if info.category in Categories {
      var v := FormatsIn(e, regs[..i], info.category) + [info];
      GetSpec(formats, info.category);
      SetKeys(formats, info.category, v);
      forall k ensures Get(Set(formats, info.category, v), k) == if k in Categories then Some(FormatsIn(e, regs[..i + 1], k)) else None {
        SetGet(formats, info.category, v, k);
      }
    }
  }

  /** Registering two lists one after the other. */
  lemma {:induction false} InsertAllAppend(regs: seq<Registration>, a: seq<Registration>, b: seq<Registration>)
    ensures InsertAll(regs, a + b) == InsertAll(InsertAll(regs, a), b)
    decreases |a|
  {
    if a == [] {
      assert a + b == b;
    } else {
      calc {
        InsertAll(regs, a + b);
      == { assert (a + b)[0] == a[0]; assert (a + b)[1..] == a[1..] + b; }
        InsertAll(Inserted(regs, a[0]), a[1..] + b);
      == { InsertAllAppend(Inserted(regs, a[0]), a[1..], b); }
        InsertAll(InsertAll(regs, a), b);
      }
    }
  }

  /** Registering one more entry after a list of them. */
  lemma {:induction false} InsertAllSnoc(regs: seq<Registration>, rs: seq<Registration>, r: Registration)
    ensures InsertAll(regs, rs + [r]) == Inserted(InsertAll(regs, rs), r)
    decreases |rs|
  {
    if rs == [] {
      assert ([] + [r])[1..] == [];
    } else {
      calc {
        InsertAll(regs, rs + [r]);
      == { assert (rs + [r])[0] == rs[0]; assert (rs + [r])[1..] == rs[1..] + [r]; }
        InsertAll(Inserted(regs, rs[0]), rs[1..] + [r]);
      == { InsertAllSnoc(Inserted(regs, rs[0]), rs[1..], r); }
        Inserted(InsertAll(regs, rs), r);
      }
    }
  }

  /** Offering four candidates, one after the other. */
  lemma AddFour(g: seq<StreamInfo>, c: seq<Option<StreamInfo>>)
    requires |c| == 4
    ensures AddGuesses(g, c) == AddGuess(AddGuess(AddGuess(AddGuess(g, c[0]), c[1]), c[2]), c[3])
  {
    var g1 := AddGuess(g, c[0]);
    var g2 := AddGuess(g1, c[1]);
    var g3 := AddGuess(g2, c[2]);
    calc {
      AddGuesses(g, c);
      AddGuesses(g1, c[1..]);
    == { assert c[1..][0] == c[1]; }
      AddGuesses(g2, c[2..]);
    == { assert c[1..][1..] == c[2..] && c[2..][0] == c[2]; }
      AddGuesses(g3, c[3..]);
    == { assert c[2..][1..] == c[3..] && c[3..][0] == c[3] && c[3..][1..] == []; }
      AddGuess(g3, c[3]);
    }
  }

  /** The inner loop's step: the pairs left are this converter's, then the rest. */
  lemma RowStep(info: StreamInfo, regs: seq<Registration>, ci: nat, rest: seq<(StreamInfo, Converter)>)
    requires ci < |regs|
    ensures (Row(info, regs[ci..]) + rest)[0] == (info, regs[ci].converter)
    ensures (Row(info, regs[ci..]) + rest)[1..] == Row(info, regs[ci + 1..]) + rest
  {
    assert regs[ci..][1..] == regs[ci + 1..];
  }
}
