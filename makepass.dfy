/**
 * The validation and selection logic of makepass's main: defaulting and checking the length
 * constraints, building the word set, rejecting bad special characters, then taking the first
 * of `sample_size` candidates whose length is allowed and counting how many are.
 */
module MakePass {
  import opened Wrappers
  import opened Filtering
  import opened Parts
  import opened Generation
  import opened Entropy
  import opened LengthFormat

  /**
   * main's parameters that reach its logic. top_words is left to the caller, which passes the
   * word list already truncated; count only asks for a printed length.
   */
  datatype Args = Args(
    wordCount: nat,
    minLength: Option<int>,
    maxLength: Option<int>,
    appendChar: bool,
    specialSet: string,
    noAppendNumeral: bool,
    minWord: int,
    maxWord: int,
    entropyEstimate: bool,
    verbose: bool,
    sampleSize: nat)

  /** What main returns instead of a password, and the exceptions it can raise. */
  datatype Error =
    | WordLengthOrder                         // "min_word must be less than or equal to max_word"
    | NoneComparison                          // TypeError: None compared with an int
    | LengthOrder                             // "min_length must be less than or equal to max_length"
    | MinimumTooLong(size: int, allowed: int) // "Impossible constraints: minumum possible size ..."
    | MaximumTooShort(size: int, allowed: int)// "Impossible constraints: maximum possible size ..."
    | InvalidSpecialChar(c: char)             // "Invalid special character ..."
    | EmptyWordSet                            // ValueError: log2(0) of an empty word set
    | NoMatch                                 // "Couldn't generate password matching constraints"
    | EntropyUndefined                        // ValueError: log2 of a non-positive number in the estimate

  /** The settings main has once every check has passed. */
  datatype Config = Config(
    minLength: int,
    maxLength: Bound,
    minWord: int,
    maxWord: int,
    wordCount: nat,
    wordSet: seq<string>,
    appendNumeral: bool,
    specialChars: string,
    sampleSize: nat)

  /** success_size and the estimate of estimate_entropy, as the ratio whose log2 it is. */
  datatype Report = Report(successSize: nat, estimate: Ratio)

  datatype Output = Output(password: string, report: Option<Report>)

  function Max(a: int, b: int): int { if a < b then b else a }

  /** Python truthiness of an optional int: None and 0 are false. */
  predicate Truthy(o: Option<int>) { o.Some? && o.value != 0 }

  /** Python's str.isspace, the characters `\s` matches. */
  predicate IsSpace(c: char)
  {
    c == ' ' || ('\t' <= c <= '\r') || ('\U{1c}' <= c <= '\U{1f}') || c == '\U{85}' || c == '\U{a0}' ||
    c == '\U{1680}' || ('\U{2000}' <= c <= '\U{200a}') || c == '\U{2028}' || c == '\U{2029}' ||
    c == '\U{202f}' || c == '\U{205f}' || c == '\U{3000}'
  }

  /** The class `[a-zA-Z\d\s]` of characters refused in the special set. */
  predicate InvalidSpecial(c: char)
  {
    IsUpper(c) || IsLower(c) || IsDigit(c) || IsSpace(c)
  }

  // ---------------------------------------------------------------------------
  // Validation

  /** Lines 244-250 of main, with Python's truthiness, and the TypeError of line 252 for a leftover None. */
  function DefaultLengths(minLength: Option<int>, maxLength: Option<int>): (r: Result<(int, Bound), Error>)
    ensures minLength.None? && maxLength.None? ==> r == Ok((24, None))
    ensures r.Err? <==> (minLength.None? && maxLength == Some(0)) || (minLength == Some(0) && maxLength.None?)
    ensures r.Err? ==> r.error == NoneComparison
    ensures r.Ok? && Truthy(minLength) ==> r.value.0 == minLength.value
    ensures r.Ok? && Truthy(maxLength) ==> r.value.1 == maxLength
    ensures r.Ok? && Truthy(maxLength) && !Truthy(minLength) ==> r.value.0 == maxLength.value
    ensures r.Ok? && Truthy(minLength) && !Truthy(maxLength) ==> r.value.1.None?
    ensures minLength.Some? && maxLength.Some? && Truthy(minLength) == Truthy(maxLength) ==>
              r == Ok((minLength.value, maxLength))
  {
    if minLength.None? && maxLength.None? then Ok((24, None))
    else if Truthy(maxLength) && !Truthy(minLength) then Ok((maxLength.value, maxLength))
    else if Truthy(minLength) && !Truthy(maxLength) then Ok((minLength.value, None))
    else if minLength.None? || maxLength.None? then Err(NoneComparison)
    else Ok((minLength.value, maxLength))
  }

  /** re.search(r'[a-zA-Z\d\s]', special_set): the first refused character, if any. */
  function FirstInvalidSpecial(s: string): (r: Option<char>)
    ensures r.None? <==> forall i :: 0 <= i < |s| ==> !InvalidSpecial(s[i])
    ensures r.Some? ==> exists i :: 0 <= i < |s| && s[i] == r.value && InvalidSpecial(s[i]) &&
                                    forall j :: 0 <= j < i ==> !InvalidSpecial(s[j])
  {
    if s == [] then None
    else if InvalidSpecial(s[0]) then Some(s[0])
    else
      var r := FirstInvalidSpecial(s[1..]);
      assert forall i :: 1 <= i < |s| ==> s[i] == s[1..][i - 1];
      r
  }

  /**
   * Lines 258-267: the characters the numeral and the special character add to every candidate,
   * as written: one for append_char, whether or not the special set is empty.
   */
  function ExtraChars(args: Args): nat
  {
    (if args.noAppendNumeral then 0 else 1) + (if args.appendChar then 1 else 0)
  }

  /** min_possible_size of lines 258-262. */
  function MinPossibleSize(args: Args): int
  {
    Max(1, args.minWord) * args.wordCount + ExtraChars(args)
  }

  /** max_possible_size of lines 263-267. */
  function MaxPossibleSize(args: Args): int
  {
    args.maxWord * args.wordCount + ExtraChars(args)
  }

  /**
   * The arguments as base_passwords sees them: append_char adds a character only when the
   * special set is non-empty (lines 83-84 and 292).
   */
  function Effective(args: Args): (r: Args)
    ensures ExtraChars(r) == (if args.noAppendNumeral then 0 else 1) +
                             (if args.appendChar && args.specialSet != [] then 1 else 0)
    ensures r.specialSet == args.specialSet && r.wordCount == args.wordCount &&
            r.minWord == args.minWord && r.maxWord == args.maxWord &&
            r.minLength == args.minLength && r.maxLength == args.maxLength
  {
    args.(appendChar := args.appendChar && args.specialSet != [])
  }

  /** The invariant of a configuration that passed every check. */
  predicate ValidConfig(c: Config)
  {
    1 <= c.minLength && WithinUpper(c.minLength, c.maxLength) &&
    1 <= c.minWord <= c.maxWord &&
    c.wordSet != [] &&
    (forall i :: 0 <= i < |c.wordSet| ==> c.minWord <= |c.wordSet[i]| <= c.maxWord) &&
    (forall i :: 0 <= i < |c.specialChars| ==> !InvalidSpecial(c.specialChars[i]))
  }

  /** Lines 241-284 of main: the word-length order, the defaulted bounds and the possible sizes. */
  function CheckLengths(args: Args): (r: Result<(int, Bound), Error>)
    ensures r == Err(WordLengthOrder) <==> args.minWord > args.maxWord
    ensures var dl := DefaultLengths(args.minLength, args.maxLength);
            args.minWord <= args.maxWord && dl.Err? ==> r == dl
    ensures var dl := DefaultLengths(args.minLength, args.maxLength);
            args.minWord <= args.maxWord && dl.Ok? && !WithinUpper(dl.value.0, dl.value.1) ==> r == Err(LengthOrder)
    ensures var dl := DefaultLengths(args.minLength, args.maxLength);
            args.minWord <= args.maxWord && dl.Ok? && WithinUpper(dl.value.0, dl.value.1) &&
            !WithinUpper(MinPossibleSize(args), dl.value.1) ==>
              r == Err(MinimumTooLong(MinPossibleSize(args), dl.value.1.value))
    ensures var dl := DefaultLengths(args.minLength, args.maxLength);
            args.minWord <= args.maxWord && dl.Ok? && WithinUpper(dl.value.0, dl.value.1) &&
            WithinUpper(MinPossibleSize(args), dl.value.1) && MaxPossibleSize(args) < Max(1, dl.value.0) ==>
              r == Err(MaximumTooShort(MaxPossibleSize(args), Max(1, dl.value.0)))
    ensures var dl := DefaultLengths(args.minLength, args.maxLength);
            args.minWord <= args.maxWord && dl.Ok? && WithinUpper(dl.value.0, dl.value.1) &&
            WithinUpper(MinPossibleSize(args), dl.value.1) && Max(1, dl.value.0) <= MaxPossibleSize(args) ==>
              r.Ok?
    ensures var dl := DefaultLengths(args.minLength, args.maxLength);
            r.Err? && r.error.MinimumTooLong? ==>
              dl.Ok? && WithinUpper(dl.value.0, dl.value.1) && dl.value.1.Some? &&
              r.error.size == MinPossibleSize(args) && r.error.allowed == dl.value.1.value &&
              r.error.size > r.error.allowed
    ensures var dl := DefaultLengths(args.minLength, args.maxLength);
            r.Err? && r.error.MaximumTooShort? ==>
              dl.Ok? && WithinUpper(dl.value.0, dl.value.1) && WithinUpper(MinPossibleSize(args), dl.value.1) &&
              r.error.size == MaxPossibleSize(args) && r.error.allowed == Max(1, dl.value.0) &&
              r.error.size < r.error.allowed
    ensures var dl := DefaultLengths(args.minLength, args.maxLength);
            r.Ok? ==>
              args.minWord <= args.maxWord && dl.Ok? && r.value == (Max(1, dl.value.0), dl.value.1) &&
              1 <= r.value.0 && WithinUpper(r.value.0, r.value.1) &&
              WithinUpper(MinPossibleSize(args), r.value.1) && r.value.0 <= MaxPossibleSize(args)
  {
    if args.minWord > args.maxWord then Err(WordLengthOrder)
    else
      match DefaultLengths(args.minLength, args.maxLength)
      case Err(e) => Err(e)
      case Ok((lo0, hi)) =>
        if !WithinUpper(lo0, hi) then Err(LengthOrder)
        else if !WithinUpper(MinPossibleSize(args), hi) then Err(MinimumTooLong(MinPossibleSize(args), hi.value))
        else if MaxPossibleSize(args) < Max(1, lo0) then Err(MaximumTooShort(MaxPossibleSize(args), Max(1, lo0)))
        else Ok((Max(1, lo0), hi))
  }

  /** Lines 241-301 of main: every check in order, up to building the candidate stream. */
  function Validate(args: Args, baseWords: seq<string>): (r: Result<Config, Error>)
    ensures r == Err(WordLengthOrder) <==> args.minWord > args.maxWord
    ensures CheckLengths(args).Err? ==> r == Err(CheckLengths(args).error)
    ensures var sc := if args.appendChar then args.specialSet else "";
            CheckLengths(args).Ok? && FirstInvalidSpecial(sc).Some? ==>
              r == Err(InvalidSpecialChar(FirstInvalidSpecial(sc).value))
    ensures r.Err? && r.error.InvalidSpecialChar? ==>
              args.appendChar && r.error.c in args.specialSet && InvalidSpecial(r.error.c)
    ensures var sc := if args.appendChar then args.specialSet else "";
            r == Err(EmptyWordSet) <==>
              CheckLengths(args).Ok? && FirstInvalidSpecial(sc).None? &&
              Keep(baseWords, Max(1, args.minWord), Some(args.maxWord)) == []
    ensures var sc := if args.appendChar then args.specialSet else "";
            CheckLengths(args).Ok? && FirstInvalidSpecial(sc).None? &&
            Keep(baseWords, Max(1, args.minWord), Some(args.maxWord)) != [] ==>
              r.Ok?
    ensures r.Ok? ==> ValidConfig(r.value)
    ensures r.Ok? ==>
              CheckLengths(args) == Ok((r.value.minLength, r.value.maxLength)) &&
              r.value.wordSet == Keep(baseWords, Max(1, args.minWord), Some(args.maxWord)) &&
              r.value.minWord == Max(1, args.minWord) && r.value.maxWord == args.maxWord &&
              r.value.wordCount == args.wordCount && r.value.sampleSize == args.sampleSize &&
              r.value.appendNumeral == !args.noAppendNumeral &&
              r.value.specialChars == (if args.appendChar then args.specialSet else "")
  {
    match CheckLengths(args)
    case Err(e) => Err(e)
    case Ok((lo, hi)) =>
      var minWord := Max(1, args.minWord);
      var wordSet := Keep(baseWords, minWord, Some(args.maxWord));
      var specialChars := if args.appendChar then args.specialSet else "";
      match FirstInvalidSpecial(specialChars)
      case Some(c) => Err(InvalidSpecialChar(c))
      case None =>
        if wordSet == [] then Err(EmptyWordSet)
        else
          ValidWordSet(baseWords, minWord, args.maxWord);
          Ok(Config(lo, hi, minWord, args.maxWord, args.wordCount, wordSet,
                    !args.noAppendNumeral, specialChars, args.sampleSize))
  }

  lemma ValidWordSet(baseWords: seq<string>, minWord: int, maxWord: int)
    requires Keep(baseWords, minWord, Some(maxWord)) != []
    ensures minWord <= maxWord
    ensures var ws := Keep(baseWords, minWord, Some(maxWord));
            forall i :: 0 <= i < |ws| ==> minWord <= |ws[i]| <= maxWord
  {
    var ws := Keep(baseWords, minWord, Some(maxWord));
    forall i | 0 <= i < |ws| ensures minWord <= |ws[i]| <= maxWord {
      KeepMembers(baseWords, minWord, Some(maxWord), ws[i]);
    }
  }

  /**
   * The size checks of lines 258-284 with the special character counted only when base_passwords
   * appends one: the checks of main on the arguments as base_passwords sees them.
   */
  function CheckLengthsCorrected(args: Args): (r: Result<(int, Bound), Error>)
    ensures r == Err(WordLengthOrder) <==> args.minWord > args.maxWord
    ensures args.appendChar ==> args.specialSet != [] ==> r == CheckLengths(args)
    ensures !args.appendChar ==> r == CheckLengths(args)
    ensures r.Ok? ==> CheckLengths(args).Ok? || CheckLengths(args).error.MinimumTooLong?
    ensures CheckLengths(args).Ok? ==> r == CheckLengths(args) || (r.Err? && r.error.MaximumTooShort?)
  {
    CheckLengths(Effective(args))
  }

  /**
   * The corrected "impossible constraints" errors are never premature: a candidate of
   * word_count words of length min_word..max_word, with the numeral and special character
   * base_passwords gives it, has no allowed length once CheckLengthsCorrected reports either.
   */
  lemma ImpossibleConstraintsJustified(args: Args, p: Parts)
    requires |p.words| == args.wordCount
    requires forall i :: 0 <= i < |p.words| ==> Max(1, args.minWord) <= |p.words[i]| <= args.maxWord
    requires p.numeral.Some? <==> !args.noAppendNumeral
    requires p.special.Some? <==> (args.appendChar && args.specialSet != [])
    requires CheckLengthsCorrected(args).Err?
    requires CheckLengthsCorrected(args).error.MinimumTooLong? || CheckLengthsCorrected(args).error.MaximumTooShort?
    ensures var dl := DefaultLengths(args.minLength, args.maxLength);
            dl.Ok? && !InLength(Assemble(p), Max(1, dl.value.0), dl.value.1)
  {
    CandidateLength(p, Max(1, args.minWord), args.maxWord);
  }

  /**
   * As written, lines 258-276 count a special character for append_char with an empty special
   * set, which base_passwords then leaves off: one word of four letters with max_length 4 is
   * refused as impossible, although the candidate "Word" it would build has an allowed length.
   */
  lemma PossibleSizeAsWrittenOvercounts()
    ensures var args := Args(1, None, Some(4), true, "", true, 4, 4, false, false, 10);
            var p := Parts(["Word"], None, None);
            DefaultLengths(args.minLength, args.maxLength) == Ok((4, Some(4))) &&
            |p.words| == args.wordCount && Max(1, args.minWord) <= |p.words[0]| <= args.maxWord &&
            p.numeral.None? && p.special.None? && (if args.appendChar then args.specialSet else "") == [] &&
            InLength(Assemble(p), 4, Some(4)) &&
            CheckLengths(args) == Err(MinimumTooLong(5, 4)) &&
            Expected(args, ["Word"], Draws(["Word"], [], [])) == Err(MinimumTooLong(5, 4)) &&
            CheckLengthsCorrected(args) == Ok((4, Some(4)))
  {
    var p := Parts(["Word"], None, None);
    assert Assemble(p) == "Word" by {
      assert Join(["Word"]) == "Word";
      assert Chars(None) == [];
    }
  }

  /**
   * The other side of the same count, lines 263-284: four words of at most eight letters and a
   * numeral, append_char with an empty special set and min_length 34 pass the checks as written,
   * though no candidate is longer than 33, so the run ends with "Couldn't generate password
   * matching constraints"; the corrected check refuses it up front.
   */
  lemma MaxPossibleSizeAsWrittenOvercounts(baseWords: seq<string>, d: Draws)
    requires Validate(Args(4, Some(34), None, true, "", false, 4, 8, false, false, 10000), baseWords).Ok?
    requires DrawsFrom(d, Validate(Args(4, Some(34), None, true, "", false, 4, 8, false, false, 10000), baseWords).value.wordSet, "")
    ensures var args := Args(4, Some(34), None, true, "", false, 4, 8, false, false, 10000);
            CheckLengths(args) == Ok((34, None)) &&
            CheckLengthsCorrected(args) == Err(MaximumTooShort(33, 34)) &&
            Expected(args, baseWords, d) == Err(NoMatch)
  {
    var args := Args(4, Some(34), None, true, "", false, 4, 8, false, false, 10000);
    var cfg := Validate(args, baseWords).value;
    var ps := SampleFrom(d, 4, true, "", 0, 0, 10000);
    SampleShape(d, 4, true, "", 0, 0, 10000, cfg.wordSet);
    forall p | p in ps ensures |Assemble(p)| <= 33 {
      assert CandidateShape(p, d, 4, true, "", cfg.wordSet);
      forall i | 0 <= i < |p.words| ensures 4 <= |p.words[i]| <= 8 {
        assert p.words[i] in cfg.wordSet;
      }
      CandidateLength(p, 4, 8);
    }
    SelectNoMatch(cfg, d, false);
  }

  // ---------------------------------------------------------------------------
  // Selection

  /** The `sample_size` candidates of lines 310-318, as strings. */
  function Candidates(cfg: Config, d: Draws): seq<string>
  {
    Passwords(SampleFrom(d, cfg.wordCount, cfg.appendNumeral, cfg.specialChars, 0, 0, cfg.sampleSize))
  }

  /** Lines 318-338: the first allowed candidate, and with an estimate requested, success_size and the estimate. */
  function Select(cfg: Config, d: Draws, wantEntropy: bool): Result<Output, Error>
  {
    var passed := Keep(Candidates(cfg, d), cfg.minLength, cfg.maxLength);
    if passed == [] then Err(NoMatch)
    else if !wantEntropy then Ok(Output(passed[0], None))
    else
      match EstimateEntropy(|cfg.wordSet|, cfg.wordCount, cfg.appendNumeral, cfg.specialChars,
                            cfg.sampleSize, |passed|)
      case None => Err(EntropyUndefined)
      case Some(e) => Ok(Output(passed[0], Some(Report(|passed|, e))))
  }

  /** main, from its parameters, the truncated word list and the random draws. */
  function Expected(args: Args, baseWords: seq<string>, d: Draws): Result<Output, Error>
  {
    match Validate(args, baseWords)
    case Err(e) => Err(e)
    case Ok(cfg) => Select(cfg, d, args.entropyEstimate || args.verbose)
  }

  /**
   * The password main returns is the first sampled candidate whose length is allowed;
   * success_size counts the allowed candidates of the sample (the returned one included), so
   * it lies between 1 and sample_size and the correction it gives is at most 0 bits.
   */
  lemma SelectFirstAllowed(cfg: Config, d: Draws, wantEntropy: bool)
    requires Select(cfg, d, wantEntropy).Ok?
    ensures var out := Select(cfg, d, wantEntropy).value;
            var cands := Candidates(cfg, d);
            InLength(out.password, cfg.minLength, cfg.maxLength) &&
            (exists i :: 0 <= i < |cands| && cands[i] == out.password &&
                         forall j :: 0 <= j < i ==> !InLength(cands[j], cfg.minLength, cfg.maxLength))
    ensures var out := Select(cfg, d, wantEntropy).value;
            var cands := Candidates(cfg, d);
            (out.report.Some? <==> wantEntropy) &&
            (out.report.Some? ==>
               |Keep(cands, cfg.minLength, cfg.maxLength)| == out.report.value.successSize &&
               1 <= out.report.value.successSize <= cfg.sampleSize &&
               out.report.value.estimate.num <=
                 UnconstrainedSpace(|cfg.wordSet|, cfg.wordCount, cfg.appendNumeral, cfg.specialChars).value *
                 out.report.value.estimate.den)
  {
    var cands := Candidates(cfg, d);
    var passed := Keep(cands, cfg.minLength, cfg.maxLength);
    KeepHead(cands, cfg.minLength, cfg.maxLength);
    KeepMembers(cands, cfg.minLength, cfg.maxLength, passed[0]);
    KeepNoLonger(cands, cfg.minLength, cfg.maxLength);
    if wantEntropy {
      EstimateWithinUnconstrained(|cfg.wordSet|, cfg.wordCount, cfg.appendNumeral, cfg.specialChars,
                                  cfg.sampleSize, |passed|);
    }
  }

  /** main fails for want of a match exactly when no sampled candidate has an allowed length. */
  lemma SelectNoMatch(cfg: Config, d: Draws, wantEntropy: bool)
    ensures Select(cfg, d, wantEntropy) == Err(NoMatch) <==>
              forall i :: 0 <= i < |Candidates(cfg, d)| ==> !InLength(Candidates(cfg, d)[i], cfg.minLength, cfg.maxLength)
  {
    var cands := Candidates(cfg, d);
    var passed := Keep(cands, cfg.minLength, cfg.maxLength);
    if passed != [] {
      KeepMembers(cands, cfg.minLength, cfg.maxLength, passed[0]);
    } else {
      forall i | 0 <= i < |cands| ensures !InLength(cands[i], cfg.minLength, cfg.maxLength) {
        KeepMembers(cands, cfg.minLength, cfg.maxLength, cands[i]);
      }
    }
  }

  /**
   * With draws taken from the word set and the special set, the estimate of a successful run
   * is always defined: a completed candidate proves the set holds word_count distinct words.
   */
  lemma SelectEntropyDefined(cfg: Config, d: Draws, wantEntropy: bool)
    requires ValidConfig(cfg) && DrawsFrom(d, cfg.wordSet, cfg.specialChars)
    ensures Select(cfg, d, wantEntropy) != Err(EntropyUndefined)
  {
    var cands := Candidates(cfg, d);
    var passed := Keep(cands, cfg.minLength, cfg.maxLength);
    if passed != [] && wantEntropy {
      KeepNoLonger(cands, cfg.minLength, cfg.maxLength);
      if |set w | w in cfg.wordSet| < cfg.wordCount {
        SampleNeedsEnoughWords(d, cfg.wordCount, cfg.appendNumeral, cfg.specialChars, 0, 0, cfg.sampleSize, cfg.wordSet);
        assert false;
      }
      UniqueLength(cfg.wordSet);
      UniqueNoLonger(cfg.wordSet);
      KeepNoLonger(cands, cfg.minLength, cfg.maxLength);
    }
  }

  /** A candidate built from the configuration's word set and special set. */
  predicate Shaped(cfg: Config, p: Parts)
  {
    |p.words| == cfg.wordCount && NoDuplicates(p.words) &&
    (forall i :: 0 <= i < |p.words| ==> p.words[i] in cfg.wordSet) &&
    (p.numeral.Some? <==> cfg.appendNumeral) && (p.numeral.Some? ==> IsDigit(p.numeral.value)) &&
    (p.special.Some? <==> cfg.specialChars != []) && (p.special.Some? ==> p.special.value in cfg.specialChars)
  }

  /**
   * With genuine draws, the password main returns is word_count distinct words of the word set
   * followed by the optional numeral and special character, and when the words are
   * capitalised, password_parts recovers exactly those parts from it.
   */
  lemma ReturnedPasswordShape(cfg: Config, d: Draws, wantEntropy: bool)
    requires Select(cfg, d, wantEntropy).Ok?
    requires ValidConfig(cfg) && DrawsFrom(d, cfg.wordSet, cfg.specialChars)
    ensures var pw := Select(cfg, d, wantEntropy).value.password;
            exists p :: p in SampleFrom(d, cfg.wordCount, cfg.appendNumeral, cfg.specialChars, 0, 0, cfg.sampleSize) &&
              Assemble(p) == pw && Shaped(cfg, p) &&
              (cfg.wordCount >= 1 && (forall i :: 0 <= i < |cfg.wordSet| ==> IsWord(cfg.wordSet[i])) ==>
                 PasswordParts(pw) == Ok(p))
  {
    SelectFirstAllowed(cfg, d, wantEntropy);
    var ps := SampleFrom(d, cfg.wordCount, cfg.appendNumeral, cfg.specialChars, 0, 0, cfg.sampleSize);
    var pw := Select(cfg, d, wantEntropy).value.password;
    var cands := Candidates(cfg, d);
    var i :| 0 <= i < |cands| && cands[i] == pw;
    var p := ps[i];
    assert p in ps;
    SampleShape(d, cfg.wordCount, cfg.appendNumeral, cfg.specialChars, 0, 0, cfg.sampleSize, cfg.wordSet);
    assert Shaped(cfg, p);
    if cfg.wordCount >= 1 && (forall i :: 0 <= i < |cfg.wordSet| ==> IsWord(cfg.wordSet[i])) {
      forall i | 0 <= i < |cfg.specialChars| ensures !IsAlnum(cfg.specialChars[i]) {
        assert !InvalidSpecial(cfg.specialChars[i]);
      }
      SampleParsesBack(d, cfg.wordCount, cfg.appendNumeral, cfg.specialChars, 0, 0, cfg.sampleSize, cfg.wordSet);
    }
  }

  // ---------------------------------------------------------------------------
  // The imperative main

  /**
   * Lines 241-301 of main, run step by step: it reassigns the length bounds and min_word,
   * checks them in order and builds the word set.
   */
  method CheckArgs(args: Args, baseWords: seq<string>) returns (r: Result<Config, Error>)
    ensures r == Validate(args, baseWords)
  {
    if args.minWord > args.maxWord {
      return Err(WordLengthOrder);
    }
    var minLength: int;
    var maxLength: Bound;
    if args.minLength.None? && args.maxLength.None? {
      minLength, maxLength := 24, None;
    } else if Truthy(args.maxLength) && !Truthy(args.minLength) {
      minLength, maxLength := args.maxLength.value, args.maxLength;
    } else if Truthy(args.minLength) && !Truthy(args.maxLength) {
      minLength, maxLength := args.minLength.value, None;
    } else if args.minLength.None? || args.maxLength.None? {
      return Err(NoneComparison);
    } else {
      minLength, maxLength := args.minLength.value, args.maxLength;
    }
    if !WithinUpper(minLength, maxLength) {
      return Err(LengthOrder);
    }
    minLength := Max(1, minLength);
    var minWord := Max(1, args.minWord);
    var extra := (if args.noAppendNumeral then 0 else 1) + (if args.appendChar then 1 else 0);
    var minPossible := minWord * args.wordCount + extra;
    var maxPossible := args.maxWord * args.wordCount + extra;
    if !WithinUpper(minPossible, maxLength) {
      return Err(MinimumTooLong(minPossible, maxLength.value));
    } else if maxPossible < minLength {
      return Err(MaximumTooShort(maxPossible, minLength));
    }
    assert CheckLengths(args) == Ok((minLength, maxLength));
    var wordSet := ConstrainLength(baseWords, minWord, Some(args.maxWord));
    var specialChars := if args.appendChar then args.specialSet else "";
    var invalid := FirstInvalidSpecial(specialChars);
    if invalid.Some? {
      return Err(InvalidSpecialChar(invalid.value));
    }
    if |wordSet| == 0 {
      return Err(EmptyWordSet);
    }
    r := Ok(Config(minLength, maxLength, minWord, args.maxWord, args.wordCount, wordSet,
                   !args.noAppendNumeral, specialChars, args.sampleSize));
  }

  // ---------------------------------------------------------------------------
  // The candidate stream, step by step

  /** The candidate strings of `ps` whose length is allowed, in order. */
  function Allowed(ps: seq<Parts>, lo: int, hi: Bound): seq<string>
    decreases |ps|
  {
    if ps == [] then []
    else
      var first := Assemble(ps[0]);
      (if InLength(first, lo, hi) then [first] else []) + Allowed(ps[1..], lo, hi)
  }

  /** Allowed is the length filter of lines 310-317 applied to the candidate strings. */
  lemma {:induction false} AllowedIsKeep(ps: seq<Parts>, lo: int, hi: Bound)
    ensures Allowed(ps, lo, hi) == Keep(Passwords(ps), lo, hi)
    decreases |ps|
  {
    if ps != [] {
      var first, tail := Assemble(ps[0]), Passwords(ps[1..]);
      assert Passwords(ps) == [first] + tail by {
        assert ps == [ps[0]] + ps[1..];
        PasswordsCons(ps[0], ps[1..]);
      }
      KeepCons(first, tail, lo, hi);
      AllowedIsKeep(ps[1..], lo, hi);
    }
  }

  /** One step of the stream: the sample at (wpos, j) starts with the next candidate, if there is one. */
  lemma SampleUnfold(d: Draws, k: nat, appendNumeral: bool, specialChars: string,
                     wpos: nat, j: nat, left: nat, lo: int, hi: Bound, p: Parts, np: nat)
    requires wpos <= |d.words| && left > 0
    requires NextParts(d, k, appendNumeral, specialChars, wpos, j) == Some((p, np))
    ensures np <= |d.words|
    ensures Allowed(SampleFrom(d, k, appendNumeral, specialChars, wpos, j, left), lo, hi) ==
              (if InLength(Assemble(p), lo, hi) then [Assemble(p)] else []) +
              Allowed(SampleFrom(d, k, appendNumeral, specialChars, np, j + 1, left - 1), lo, hi)
  {
    var rest := SampleFrom(d, k, appendNumeral, specialChars, np, j + 1, left - 1);
    assert SampleFrom(d, k, appendNumeral, specialChars, wpos, j, left) == [p] + rest;
    assert ([p] + rest)[0] == p && ([p] + rest)[1..] == rest;
  }

  /** Nothing is left of a stretch of the stream that is empty or whose next candidate cannot be drawn. */
  lemma SampleEnds(d: Draws, k: nat, appendNumeral: bool, specialChars: string,
                   wpos: nat, j: nat, left: nat, lo: int, hi: Bound)
    requires wpos <= |d.words|
    requires left == 0 || NextParts(d, k, appendNumeral, specialChars, wpos, j).None?
    ensures Allowed(SampleFrom(d, k, appendNumeral, specialChars, wpos, j, left), lo, hi) == []
    ensures FirstFrom(d, k, appendNumeral, specialChars, wpos, j, left, lo, hi).None?
    ensures CountFrom(d, k, appendNumeral, specialChars, wpos, j, left, lo, hi) == 0
  {
  }

  /**
   * next() over the length-filtered islice(passwords, left) from the stream at (wpos, j): the
   * first allowed candidate, and where the stream stands after it.
   */
  function FirstFrom(d: Draws, k: nat, appendNumeral: bool, specialChars: string,
                     wpos: nat, j: nat, left: nat, lo: int, hi: Bound): (r: Option<(string, nat, nat, nat)>)
    requires wpos <= |d.words|
    ensures r.Some? ==> wpos <= r.value.1 <= |d.words| && j < r.value.2 && r.value.2 + r.value.3 == j + left
    decreases left
  {
    if left == 0 then None
    else
      match NextParts(d, k, appendNumeral, specialChars, wpos, j)
      case None => None
      case Some((p, np)) =>
        if InLength(Assemble(p), lo, hi) then Some((Assemble(p), np, j + 1, left - 1))
        else FirstFrom(d, k, appendNumeral, specialChars, np, j + 1, left - 1, lo, hi)
  }

  /** FirstFrom finds nothing exactly when no candidate of the stretch is allowed. */
  lemma {:induction false} FirstFromNone(d: Draws, k: nat, appendNumeral: bool, specialChars: string,
                                         wpos: nat, j: nat, left: nat, lo: int, hi: Bound)
    requires wpos <= |d.words|
    ensures FirstFrom(d, k, appendNumeral, specialChars, wpos, j, left, lo, hi).None? <==>
            Allowed(SampleFrom(d, k, appendNumeral, specialChars, wpos, j, left), lo, hi) == []
    decreases left
  {
    var next := NextParts(d, k, appendNumeral, specialChars, wpos, j);
    if left == 0 || next.None? {
      SampleEnds(d, k, appendNumeral, specialChars, wpos, j, left, lo, hi);
    } else {
      var p, np := next.value.0, next.value.1;
      SampleUnfold(d, k, appendNumeral, specialChars, wpos, j, left, lo, hi, p, np);
      if !InLength(Assemble(p), lo, hi) {
        FirstFromNone(d, k, appendNumeral, specialChars, np, j + 1, left - 1, lo, hi);
        assert FirstFrom(d, k, appendNumeral, specialChars, wpos, j, left, lo, hi) ==
               FirstFrom(d, k, appendNumeral, specialChars, np, j + 1, left - 1, lo, hi);
      }
    }
  }

  /**
   * What FirstFrom finds is the head of the allowed candidates, and the rest of them are the
   * allowed candidates of the stream from the position it gives.
   */
  lemma {:induction false} FirstFromSome(d: Draws, k: nat, appendNumeral: bool, specialChars: string,
                                         wpos: nat, j: nat, left: nat, lo: int, hi: Bound,
                                         password: string, wpos': nat, j': nat, left': nat)
    requires wpos <= |d.words| && wpos' <= |d.words|
    requires FirstFrom(d, k, appendNumeral, specialChars, wpos, j, left, lo, hi) == Some((password, wpos', j', left'))
    ensures Allowed(SampleFrom(d, k, appendNumeral, specialChars, wpos, j, left), lo, hi) ==
            [password] + Allowed(SampleFrom(d, k, appendNumeral, specialChars, wpos', j', left'), lo, hi)
    decreases left
  {
    var next := NextParts(d, k, appendNumeral, specialChars, wpos, j);
    assert left > 0 && next.Some?;
    var p, np := next.value.0, next.value.1;
    SampleUnfold(d, k, appendNumeral, specialChars, wpos, j, left, lo, hi, p, np);
    if InLength(Assemble(p), lo, hi) {
      assert password == Assemble(p) && wpos' == np && j' == j + 1 && left' == left - 1;
    } else {
      assert FirstFrom(d, k, appendNumeral, specialChars, np, j + 1, left - 1, lo, hi) ==
             Some((password, wpos', j', left'));
      FirstFromSome(d, k, appendNumeral, specialChars, np, j + 1, left - 1, lo, hi, password, wpos', j', left');
    }
  }

  /** count_iterator over the length-filtered islice(passwords, left) from the stream at (wpos, j). */
  function CountFrom(d: Draws, k: nat, appendNumeral: bool, specialChars: string,
                     wpos: nat, j: nat, left: nat, lo: int, hi: Bound): nat
    requires wpos <= |d.words|
    decreases left
  {
    if left == 0 then 0
    else
      match NextParts(d, k, appendNumeral, specialChars, wpos, j)
      case None => 0
      case Some((p, np)) =>
        (if InLength(Assemble(p), lo, hi) then 1 else 0) +
        CountFrom(d, k, appendNumeral, specialChars, np, j + 1, left - 1, lo, hi)
  }

  /** CountFrom counts the allowed candidates. */
  lemma {:induction false} CountFromAllowed(d: Draws, k: nat, appendNumeral: bool, specialChars: string,
                                            wpos: nat, j: nat, left: nat, lo: int, hi: Bound)
    requires wpos <= |d.words|
    ensures CountFrom(d, k, appendNumeral, specialChars, wpos, j, left, lo, hi) ==
            |Allowed(SampleFrom(d, k, appendNumeral, specialChars, wpos, j, left), lo, hi)|
    decreases left
  {
    var next := NextParts(d, k, appendNumeral, specialChars, wpos, j);
    if left == 0 || next.None? {
      SampleEnds(d, k, appendNumeral, specialChars, wpos, j, left, lo, hi);
    } else {
      var p, np := next.value.0, next.value.1;
      SampleUnfold(d, k, appendNumeral, specialChars, wpos, j, left, lo, hi, p, np);
      CountFromAllowed(d, k, appendNumeral, specialChars, np, j + 1, left - 1, lo, hi);
    }
  }

  /** next() over the length-filtered islice(passwords, n), lines 318-319, run on the stream. */
  method FirstAllowed(d: Draws, k: nat, appendNumeral: bool, specialChars: string, n: nat, lo: int, hi: Bound)
    returns (found: bool, password: string, wpos: nat, j: nat, left: nat)
    ensures found <==> FirstFrom(d, k, appendNumeral, specialChars, 0, 0, n, lo, hi).Some?
    ensures found ==> FirstFrom(d, k, appendNumeral, specialChars, 0, 0, n, lo, hi) == Some((password, wpos, j, left))
  {
    ghost var first := FirstFrom(d, k, appendNumeral, specialChars, 0, 0, n, lo, hi);
    wpos, j, left := 0, 0, n;
    found, password := false, "";
    while !found && left > 0
      invariant wpos <= |d.words|
      invariant !found ==> first == FirstFrom(d, k, appendNumeral, specialChars, wpos, j, left, lo, hi)
      invariant found ==> first == Some((password, wpos, j, left))
      decreases left
    {
      var next := NextCandidate(d, k, appendNumeral, specialChars, wpos, j);
      if next.None? {
        break;
      }
      var p, np := next.value.0, next.value.1;
      wpos, j, left := np, j + 1, left - 1;
      if InLength(Assemble(p), lo, hi) {
        found, password := true, Assemble(p);
      }
    }
  }

  /**
   * count_iterator (lines 104-112) over the rest of the length-filtered sample: how many of
   * the next n candidates of the stream at (wpos, j) have an allowed length.
   */
  method CountAllowed(d: Draws, k: nat, appendNumeral: bool, specialChars: string,
                      wpos: nat, j: nat, n: nat, lo: int, hi: Bound) returns (count: nat)
    requires wpos <= |d.words|
    ensures count == CountFrom(d, k, appendNumeral, specialChars, wpos, j, n, lo, hi)
  {
    count := 0;
    var pos: nat, idx: nat, left: nat := wpos, j, n;
    while left > 0
      invariant pos <= |d.words|
      invariant count + CountFrom(d, k, appendNumeral, specialChars, pos, idx, left, lo, hi) ==
                CountFrom(d, k, appendNumeral, specialChars, wpos, j, n, lo, hi)
      decreases left
    {
      var next := NextCandidate(d, k, appendNumeral, specialChars, pos, idx);
      if next.None? {
        break;
      }
      var p, np := next.value.0, next.value.1;
      if InLength(Assemble(p), lo, hi) {
        count := count + 1;
      }
      pos, idx, left := np, idx + 1, left - 1;
    }
  }

  /**
   * Lines 310-338 of main, run step by step: the first allowed candidate, then count_iterator
   * over what is left of the filtered sample.
   */
  method Sample(cfg: Config, d: Draws, wantEntropy: bool) returns (r: Result<Output, Error>)
    ensures r == Select(cfg, d, wantEntropy)
  {
    var k, n, appendNumeral, specialChars := cfg.wordCount, cfg.sampleSize, cfg.appendNumeral, cfg.specialChars;
    var lo, hi := cfg.minLength, cfg.maxLength;
    var found, password, wpos, j, left := FirstAllowed(d, k, appendNumeral, specialChars, n, lo, hi);
    AllowedIsKeep(SampleFrom(d, k, appendNumeral, specialChars, 0, 0, n), lo, hi);
    if !found {
      FirstFromNone(d, k, appendNumeral, specialChars, 0, 0, n, lo, hi);
      return Err(NoMatch);
    }
    FirstFromSome(d, k, appendNumeral, specialChars, 0, 0, n, lo, hi, password, wpos, j, left);
    if !wantEntropy {
      return Ok(Output(password, None));
    }
    var more := CountAllowed(d, k, appendNumeral, specialChars, wpos, j, left, lo, hi);
    CountFromAllowed(d, k, appendNumeral, specialChars, wpos, j, left, lo, hi);
    var successSize := more + 1;
    var estimate := EstimateEntropy(|cfg.wordSet|, k, appendNumeral, specialChars, n, successSize);
    if estimate.None? {
      return Err(EntropyUndefined);
    }
    return Ok(Output(password, Some(Report(successSize, estimate.value))));
  }

  /** main from line 241 on. */
  method Run(args: Args, baseWords: seq<string>, d: Draws) returns (r: Result<Output, Error>)
    ensures r == Expected(args, baseWords, d)
  {
    var checked := CheckArgs(args, baseWords);
    if checked.Err? {
      return Err(checked.error);
    }
    r := Sample(checked.value, d, args.entropyEstimate || args.verbose);
  }

  // ---------------------------------------------------------------------------
  // Messages

  /** The strings main returns, with the invalid-character message naming the character. */
  function Message(e: Error): Option<string>
  {
    match e
    case WordLengthOrder => Some("min_word must be less than or equal to max_word")
    case LengthOrder => Some("min_length must be less than or equal to max_length")
    case MinimumTooLong(size, allowed) =>
      Some("Impossible constraints: minumum possible size (" + Decimal(size) +
           ") greater than maximum allowed password length (" + Decimal(allowed) + ")")
    case MaximumTooShort(size, allowed) =>
      Some("Impossible constraints: maximum possible size (" + Decimal(size) +
           ") less than minimum allowed password length (" + Decimal(allowed) + ")")
    case InvalidSpecialChar(c) =>
      Some(InvalidCharPrefix + [c] + InvalidCharSuffix)
    case NoMatch => Some("Couldn't generate password matching constraints")
    case _ => None   // raised exceptions, not returned strings
  }

  const InvalidCharPrefix: string := "Invalid special character "
  const InvalidCharSuffix: string :=
    " in special character set. Special characters should not be alpha, numeric, or whitespace."

  /** The template of lines 296-299, returned without the .format call it needs. */
  const InvalidCharTemplate: string := InvalidCharPrefix + "{char}" + InvalidCharSuffix

  /** The strings main returns, as written. */
  function MessageAsWritten(e: Error): Option<string>
  {
    if e.InvalidSpecialChar? then Some(InvalidCharTemplate) else Message(e)
  }

  /** As written, the message is the same whatever the character, and shows "{char}" in its place. */
  lemma AsWrittenMessageOmitsChar(c1: char, c2: char)
    ensures MessageAsWritten(InvalidSpecialChar(c1)) == MessageAsWritten(InvalidSpecialChar(c2))
    ensures MessageAsWritten(InvalidSpecialChar(c1)) == Some(InvalidCharPrefix + "{char}" + InvalidCharSuffix)
  {
  }

  /** The corrected message names the offending character, so different characters give different messages. */
  lemma InvalidCharMessageNamesChar(c1: char, c2: char)
    ensures Message(InvalidSpecialChar(c1)) == Some(InvalidCharPrefix + [c1] + InvalidCharSuffix)
    ensures c1 != c2 ==> Message(InvalidSpecialChar(c1)) != Message(InvalidSpecialChar(c2))
  {
    var m1 := InvalidCharPrefix + [c1] + InvalidCharSuffix;
    var m2 := InvalidCharPrefix + [c2] + InvalidCharSuffix;
    assert m1[|InvalidCharPrefix|] == c1 && m2[|InvalidCharPrefix|] == c2;
  }
}
