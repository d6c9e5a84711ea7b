/** The interactive loop of identity_generator.py: split each input line into
    words, dispatch on the first word without regard to case, check the
    arguments of `generate` and `check-inbox` before anything is generated or
    polled, and name the per-identity log files of `--save-log`. */
module Shell {
  import opened Common
  import opened Batch

  // ---------------------------------------------------------------------------
  // Arguments of `generate` and their checks.
  // ---------------------------------------------------------------------------

  /** The parsed arguments of `generate`; an option that was not given is
      None, as argparse leaves it. `fields` is None or non-empty
      (`nargs="+"`). */
  datatype GenerateArgs = GenerateArgs(
    save: bool, saveLog: bool, country: string, gender: string, format: string,
    count: int, fields: Option<seq<string>>, noPreview: bool, minAge: int, maxAge: int,
    useTempEmail: bool, manualEmail: Option<string>, encrypt: Option<string>)

  /** The outcome of an argument check: the message printed before the loop
      `continue`s, or the arguments the command goes on with. `warned` records
      the warning about invalid fields, which does not stop the command. */
  datatype Verdict<A> = Reject(message: string) | Proceed(args: A, warned: bool)

  const CountError: string := "Error: Count must be positive"
  const AgeError: string := "Error: Invalid age range (min_age >=0, min_age <= max_age <=120)"
  const EmailConflictError: string := "Error: Cannot use both --use-temp-email and --manual-email"
  const CsvEncryptError: string := "Error: Encryption is not supported for CSV format"

  predicate AgesValid(a: GenerateArgs) {
    0 <= a.minAge <= a.maxAge <= 120
  }

  /** Python truthiness of an optional list. */
  predicate Given(fields: Option<seq<string>>) {
    fields.Some? && fields.value != []
  }

  predicate AllValid(fields: seq<string>) {
    forall f :: f in fields ==> f in ValidFields
  }

  /** The checks of `generate`, in the order the loop makes them. */
  function ValidateGenerate(a: GenerateArgs): (v: Verdict<GenerateArgs>)
    ensures v == Reject(CountError) <==> a.count < 1
    ensures v == Reject(AgeError) <==> a.count >= 1 && !AgesValid(a)
    ensures v == Reject(EmailConflictError) <==>
              a.count >= 1 && AgesValid(a) && a.useTempEmail && Truthy(a.manualEmail)
    ensures v == Reject(CsvEncryptError) <==>
              a.count >= 1 && AgesValid(a) && !(a.useTempEmail && Truthy(a.manualEmail))
              && Truthy(a.encrypt) && a.format == "csv"
    ensures v.Proceed? ==> v.args == a.(fields := v.args.fields)
    ensures v.Proceed? ==> (v.warned <==> Given(a.fields) && !AllValid(a.fields.value))
    ensures v.Proceed? ==> v.args.fields == if v.warned then None else a.fields
  {
    if a.count < 1 then Reject(CountError)
    else if a.minAge < 0 || a.maxAge < a.minAge || a.maxAge > 120 then Reject(AgeError)
    else if a.useTempEmail && Truthy(a.manualEmail) then Reject(EmailConflictError)
    else if Truthy(a.encrypt) && a.format == "csv" then Reject(CsvEncryptError)
    else if Given(a.fields) && !AllValid(a.fields.value) then Proceed(a.(fields := None), true)
    else Proceed(a, false)
  }

  /** What reaches generate_batch_identities. */
  predicate GenerateAllowed(a: GenerateArgs) {
    && a.count >= 1
    && AgesValid(a)
    && !(a.useTempEmail && Truthy(a.manualEmail))
    && !(Truthy(a.encrypt) && a.format == "csv")
    && (Given(a.fields) ==> AllValid(a.fields.value))
  }

  /** `generate` goes ahead exactly when no check fails, and what it goes
      ahead with passes every check: no rejected argument set reaches the
      batch, and a field list that reaches it holds only valid names. */
  lemma ValidateGenerateProceeds(a: GenerateArgs)
    ensures ValidateGenerate(a).Proceed? <==>
              a.count >= 1 && AgesValid(a) && !(a.useTempEmail && Truthy(a.manualEmail))
              && !(Truthy(a.encrypt) && a.format == "csv")
    ensures ValidateGenerate(a).Proceed? ==> GenerateAllowed(ValidateGenerate(a).args)
  {
  }

  /** A field list with an invalid name is dropped whole, not filtered: the
      batch then holds full identity dicts. */
  lemma InvalidFieldsDropAll(a: GenerateArgs, bad: string)
    requires a.fields.Some? && bad in a.fields.value && bad !in ValidFields
    requires ValidateGenerate(a).Proceed?
    ensures ValidateGenerate(a).args.fields.None?
  {
  }

  // ---------------------------------------------------------------------------
  // Arguments of `check-inbox`.
  // ---------------------------------------------------------------------------

  datatype CheckInboxArgs = CheckInboxArgs(
    token: string, codePattern: string, linkPattern: string, pollAttempts: int, pollInterval: real)

  const PollAttemptsError: string := "Error: Poll attempts must be positive"
  const PollIntervalError: string := "Error: Poll interval must be positive"

  function ValidateCheckInbox(a: CheckInboxArgs): (v: Verdict<CheckInboxArgs>)
    ensures v == Reject(PollAttemptsError) <==> a.pollAttempts < 1
    ensures v == Reject(PollIntervalError) <==> a.pollAttempts >= 1 && a.pollInterval <= 0.0
    ensures v.Proceed? <==> a.pollAttempts >= 1 && a.pollInterval > 0.0
    ensures v.Proceed? ==> v.args == a && !v.warned
  {
    if a.pollAttempts < 1 then Reject(PollAttemptsError)
    else if a.pollInterval <= 0.0 then Reject(PollIntervalError)
    else Proceed(a, false)
  }

  // ---------------------------------------------------------------------------
  // Words of an input line: `str.split()` with no separator.
  // ---------------------------------------------------------------------------

  /** The characters `str.split()` treats as whitespace. */
  predicate IsSpace(c: char) {
    || c == ' ' || '\t' <= c <= '\r' || '\U{1c}' <= c <= '\U{1f}'
    || c == '\U{85}' || c == '\U{a0}' || c == '\U{1680}' || '\U{2000}' <= c <= '\U{200a}'
    || c == '\U{2028}' || c == '\U{2029}' || c == '\U{202f}' || c == '\U{205f}' || c == '\U{3000}'
  }

  predicate IsWord(w: string) {
    |w| > 0 && forall i :: 0 <= i < |w| ==> !IsSpace(w[i])
  }

  predicate AllSpace(s: string) {
    forall i :: 0 <= i < |s| ==> IsSpace(s[i])
  }

  /** The run of non-whitespace characters that starts `s`. */
  function LeadingWord(s: string): (w: string)
    ensures |w| <= |s| && w == s[..|w|]
    ensures forall i :: 0 <= i < |w| ==> !IsSpace(w[i])
    ensures |w| == |s| || IsSpace(s[|w|])
  {
    if s == [] || IsSpace(s[0]) then [] else [s[0]] + LeadingWord(s[1..])
  }

  function SplitWords(s: string): (ws: seq<string>)
    ensures forall w :: w in ws ==> IsWord(w)
    decreases |s|
  {
    if s == [] then []
    else if IsSpace(s[0]) then SplitWords(s[1..])
    else
      var w := LeadingWord(s);
      [w] + SplitWords(s[|w|..])
  }

  /** `s` with its whitespace removed. */
  function NonSpace(s: string): string {
    if s == [] then [] else (if IsSpace(s[0]) then [] else [s[0]]) + NonSpace(s[1..])
  }

  function Concat(ws: seq<string>): string {
    if ws == [] then [] else ws[0] + Concat(ws[1..])
  }

  lemma {:induction false} NonSpaceAppend(a: string, b: string)
    ensures NonSpace(a + b) == NonSpace(a) + NonSpace(b)
    decreases |a|
  {
    if a == [] {
      assert a + b == b;
    } else {
      assert (a + b)[1..] == a[1..] + b;
      NonSpaceAppend(a[1..], b);
    }
  }

  lemma {:induction false} NonSpaceOfWord(w: string)
    requires forall i :: 0 <= i < |w| ==> !IsSpace(w[i])
    ensures NonSpace(w) == w
    decreases |w|
  {
    if w != [] {
      NonSpaceOfWord(w[1..]);
    }
  }

  /** The words are exactly the non-whitespace characters of the line:
      nothing is lost, reordered or invented. Where the cuts fall is
      SplitWordsCut. */
  lemma {:induction false} SplitWordsKeepsText(s: string)
    ensures Concat(SplitWords(s)) == NonSpace(s)
    decreases |s|
  {
    if s != [] {
      if IsSpace(s[0]) {
        SplitWordsKeepsText(s[1..]);
      } else {
        var w := LeadingWord(s);
        SplitWordsKeepsText(s[|w|..]);
        assert s == w + s[|w|..];
        NonSpaceAppend(w, s[|w|..]);
        NonSpaceOfWord(w);
        assert ([w] + SplitWords(s[|w|..]))[1..] == SplitWords(s[|w|..]);
      }
    }
  }

  /** Where `str.split()` cuts: after leading whitespace, a word that ends at
      whitespace or at the end of the line is split off whole, and the rest
      is split on its own. */
  lemma {:induction false} SplitWordsCut(sep: string, w: string, rest: string)
    requires AllSpace(sep) && IsWord(w) && (rest == [] || IsSpace(rest[0]))
    ensures SplitWords(sep + w + rest) == [w] + SplitWords(rest)
    decreases |sep|
  {
    var s := sep + w + rest;
    if sep == [] {
      assert s == w + rest;
      LeadingWordOf(w, rest);
      assert s[|w|..] == rest;
    } else {
      assert s[0] == sep[0];
      assert s[1..] == sep[1..] + w + rest;
      SplitWordsCut(sep[1..], w, rest);
    }
  }

  /** The leading word of a whitespace-free run followed by whitespace or the
      end of the line is that run. */
  lemma {:induction false} LeadingWordOf(w: string, rest: string)
    requires forall i :: 0 <= i < |w| ==> !IsSpace(w[i])
    requires rest == [] || IsSpace(rest[0])
    ensures LeadingWord(w + rest) == w
    decreases |w|
  {
    if w == [] {
      assert w + rest == rest;
    } else {
      assert (w + rest)[0] == w[0];
      assert (w + rest)[1..] == w[1..] + rest;
      LeadingWordOf(w[1..], rest);
    }
  }

  /** A line has no words exactly when it is all whitespace (`if not args_list`). */
  lemma {:induction false} SplitWordsEmpty(s: string)
    ensures SplitWords(s) == [] <==> AllSpace(s)
    decreases |s|
  {
    if s != [] && IsSpace(s[0]) {
      SplitWordsEmpty(s[1..]);
      assert AllSpace(s) <==> AllSpace(s[1..]) by {
        assert forall i :: 0 < i < |s| ==> s[i] == s[1..][i - 1];
      }
    }
  }

  // ---------------------------------------------------------------------------
  // The command loop.
  // ---------------------------------------------------------------------------

  /** What the loop does with one input line. */
  datatype Reaction =
    | Ignored                                           // an empty line
    | Exited                                            // `stop`
    | Cleared                                           // `clean`
    | ParseFailed                                       // argparse exits: "Error: Invalid arguments."
    | Rejected(message: string)                         // a failed argument check
    | Generated(args: GenerateArgs, warned: bool)       // generate_batch_identities is called
    | Polled(inbox: CheckInboxArgs)                     // check_inbox is called
    | UnknownCommand(message: string)

  /** The command words the loop dispatches on, after lower-casing. */
  const Commands: seq<string> := ["stop", "clean", "generate", "check-inbox"]

  /** argparse for one command: the parsed arguments, or None when it exits. */
  type GenerateParser = seq<string> -> Option<GenerateArgs>
  type CheckInboxParser = seq<string> -> Option<CheckInboxArgs>

  /** The line's first word is `c` in any ASCII case. */
  predicate CommandIs(line: string, c: string) {
    SplitWords(line) != [] && Lower(SplitWords(line)[0]) == c
  }

  /** The words after the command word, as handed to argparse. */
  function Arguments(line: string): seq<string>
    requires SplitWords(line) != []
  {
    SplitWords(line)[1..]
  }

  /** The loop's answer to one line: blank lines are skipped, `stop` exits
      and any word that is not a command is unknown. ReactDispatch gives the
      answers to the other commands. */
  function React(line: string, parseGenerate: GenerateParser, parseCheckInbox: CheckInboxParser): (r: Reaction)
    ensures r == Ignored <==> AllSpace(line)
    ensures r == Exited <==> CommandIs(line, "stop")
    ensures r.UnknownCommand? <==>
              SplitWords(line) != [] && Lower(SplitWords(line)[0]) !in Commands
  {
    SplitWordsEmpty(line);
    var words := SplitWords(line);
    if words == [] then Ignored
    else
      var command := Lower(words[0]);
      if command == "stop" then Exited
      else if command == "clean" then Cleared
      else if command == "generate" then
        match parseGenerate(words[1..])
        case None => ParseFailed
        case Some(a) =>
          match ValidateGenerate(a)
          case Reject(m) => Rejected(m)
          case Proceed(args, warned) => Generated(args, warned)
      else if command == "check-inbox" then
        match parseCheckInbox(words[1..])
        case None => ParseFailed
        case Some(a) =>
          match ValidateCheckInbox(a)
          case Reject(m) => Rejected(m)
          case Proceed(args, _) => Polled(args)
      else UnknownCommand("Unknown command: " + words[0] + ".")
  }

  /** `clean` clears the screen; `generate` and `check-inbox` go ahead
      exactly when argparse accepts the words and every check passes, and
      otherwise answer with the first failing check's message. */
  lemma ReactDispatch(line: string, parseGenerate: GenerateParser, parseCheckInbox: CheckInboxParser)
    ensures var r := React(line, parseGenerate, parseCheckInbox);
            CommandIs(line, "clean") ==> r == Cleared
    ensures var r := React(line, parseGenerate, parseCheckInbox);
            CommandIs(line, "generate") ==>
              match parseGenerate(Arguments(line))
              case None => r == ParseFailed
              case Some(a) =>
                && (a.count < 1 ==> r == Rejected(CountError))
                && (a.count >= 1 && !AgesValid(a) ==> r == Rejected(AgeError))
                && ((a.count >= 1 && AgesValid(a) && a.useTempEmail && Truthy(a.manualEmail))
                    ==> r == Rejected(EmailConflictError))
                && ((a.count >= 1 && AgesValid(a) && !(a.useTempEmail && Truthy(a.manualEmail))
                     && Truthy(a.encrypt) && a.format == "csv")
                    ==> r == Rejected(CsvEncryptError))
                && ((a.count >= 1 && AgesValid(a) && !(a.useTempEmail && Truthy(a.manualEmail))
                     && !(Truthy(a.encrypt) && a.format == "csv"))
                    ==> r.Generated? && ValidateGenerate(a) == Proceed(r.args, r.warned))
    ensures var r := React(line, parseGenerate, parseCheckInbox);
            CommandIs(line, "check-inbox") ==>
              match parseCheckInbox(Arguments(line))
              case None => r == ParseFailed
              case Some(a) =>
                && (a.pollAttempts < 1 ==> r == Rejected(PollAttemptsError))
                && (a.pollAttempts >= 1 && a.pollInterval <= 0.0 ==> r == Rejected(PollIntervalError))
                && (a.pollAttempts >= 1 && a.pollInterval > 0.0 ==> r == Polled(a))
  {
  }

  /** The reactions to `lines`, up to and including the first `stop`. */
  function Reactions(lines: seq<string>, parseGenerate: GenerateParser, parseCheckInbox: CheckInboxParser)
    : seq<Reaction>
  {
    if lines == [] then []
    else
      var r := React(lines[0], parseGenerate, parseCheckInbox);
      if r == Exited then [r] else [r] + Reactions(lines[1..], parseGenerate, parseCheckInbox)
  }

  /** `main`'s `while True` loop over the lines read, until `stop`. */
  method RunShell(lines: seq<string>, parseGenerate: GenerateParser, parseCheckInbox: CheckInboxParser)
    returns (reactions: seq<Reaction>)
    ensures reactions == Reactions(lines, parseGenerate, parseCheckInbox)
  {
    reactions := [];
    var i := 0;
    while i < |lines|
      invariant 0 <= i <= |lines|
      invariant reactions + Reactions(lines[i..], parseGenerate, parseCheckInbox)
                == Reactions(lines, parseGenerate, parseCheckInbox)
    {
      var r := React(lines[i], parseGenerate, parseCheckInbox);
      assert lines[i..][0] == lines[i] && lines[i..][1..] == lines[i + 1..];
      reactions := reactions + [r];
      if r == Exited {
        break;
      }
      i := i + 1;
    }
  }

  /** The loop answers every line in turn and stops right after the first
      `stop`: the i-th reaction is to the i-th line, only the last one can
      be Exited, and without a `stop` every line is answered. */
  lemma {:induction false} ReactionsInOrder(lines: seq<string>, parseGenerate: GenerateParser,
                                            parseCheckInbox: CheckInboxParser)
    ensures var rs := Reactions(lines, parseGenerate, parseCheckInbox);
            && |rs| <= |lines|
            && (forall i :: 0 <= i < |rs| ==> rs[i] == React(lines[i], parseGenerate, parseCheckInbox))
            && (forall i :: 0 <= i < |rs| - 1 ==> rs[i] != Exited)
            && (|rs| < |lines| ==> rs != [] && rs[|rs| - 1] == Exited)
    decreases |lines|
  {
    if lines != [] {
      var r := React(lines[0], parseGenerate, parseCheckInbox);
      if r != Exited {
        var rest := Reactions(lines[1..], parseGenerate, parseCheckInbox);
        ReactionsInOrder(lines[1..], parseGenerate, parseCheckInbox);
        var rs := Reactions(lines, parseGenerate, parseCheckInbox);
        assert rs == [r] + rest;
        assert forall i :: 0 < i < |rs| ==> rs[i] == rest[i - 1] && lines[i] == lines[1..][i - 1];
      }
    }
  }

  /** Every generation the loop starts has passed all the checks of
      `generate`, and every poll has a positive attempt count and interval. */
  lemma NoRejectedArgumentsProceed(line: string, parseGenerate: GenerateParser,
                                   parseCheckInbox: CheckInboxParser)
    ensures var r := React(line, parseGenerate, parseCheckInbox);
            && (r.Generated? ==> GenerateAllowed(r.args))
            && (r.Polled? ==> r.inbox.pollAttempts >= 1 && r.inbox.pollInterval > 0.0)
  {
    var words := SplitWords(line);
    if words != [] && Lower(words[0]) == "generate" && parseGenerate(words[1..]).Some? {
      ValidateGenerateProceeds(parseGenerate(words[1..]).value);
    }
  }

  /** The command word is matched without regard to ASCII case. */
  lemma DispatchIgnoresCase(line: string, other: string, parseGenerate: GenerateParser,
                            parseCheckInbox: CheckInboxParser)
    requires |SplitWords(line)| > 0 && |SplitWords(other)| > 0
    requires Lower(SplitWords(line)[0]) == Lower(SplitWords(other)[0])
    requires SplitWords(line)[1..] == SplitWords(other)[1..]
    requires Lower(SplitWords(line)[0]) in Commands
    ensures React(line, parseGenerate, parseCheckInbox) == React(other, parseGenerate, parseCheckInbox)
  {
  }

  // ---------------------------------------------------------------------------
  // Names of the `--save-log` files.
  // ---------------------------------------------------------------------------

  const LogPrefix: string := "identity_details_"

  /** The log file name of the i-th of n identities, for the timestamp read
      in that iteration. */
  function LogName(stamp: string, i: nat, n: nat): (name: string)
    ensures LogPrefix + stamp <= name
    ensures |name| >= |LogPrefix| + |stamp| + 4 && name[|name| - 4..] == ".log"
  {
    if n > 1 then LogPrefix + stamp + "_" + NatToString(i + 1) + ".log"
    else LogPrefix + stamp + ".log"
  }

  /** The `enumerate` loop of `--save-log`; `clock(i)` is the timestamp
      `datetime.now()` gives in iteration i. */
  method SaveLogNames(n: nat, clock: nat -> string) returns (names: seq<string>)
    ensures |names| == n
    ensures forall i :: 0 <= i < n ==> names[i] == LogName(clock(i), i, n)
  {
    names := [];
    for i := 0 to n
      invariant |names| == i
      invariant forall k :: 0 <= k < i ==> names[k] == LogName(clock(k), k, n)
    {
      var name;
      if n > 1 {
        name := LogPrefix + clock(i) + "_" + NatToString(i + 1) + ".log";
      } else {
        name := LogPrefix + clock(i) + ".log";
      }
      names := names + [name];
    }
  }

  /** A name carries the `_<i+1>` suffix exactly when the batch has more
      than one identity; otherwise it is the bare timestamped name. */
  lemma LogNameSuffix(stamp: string, i: nat, n: nat)
    ensures LogName(stamp, i, n) == LogPrefix + stamp + ".log" <==> n <= 1
    ensures n > 1 ==> LogName(stamp, i, n)[|LogPrefix| + |stamp|] == '_'
  {
    if n > 1 {
      NumberedName(LogPrefix + stamp, NatToString(i + 1));
    }
  }

  /** A numbered name differs from the bare one and has '_' right after the
      prefix. */
  lemma NumberedName(p: string, x: string)
    ensures p + "_" + x + ".log" != p + ".log"
    ensures (p + "_" + x + ".log")[|p|] == '_'
  {
    assert |p + "_" + x + ".log"| > |p + ".log"|;
  }

  /** With timestamps of one length, as `%Y%m%d_%H%M%S` gives, the names of
      one batch of several identities are pairwise distinct, even when the
      clock ticks between iterations. */
  lemma LogNamesDistinct(s1: string, s2: string, i: nat, j: nat, n: nat)
    requires n > 1 && |s1| == |s2| && i != j
    ensures LogName(s1, i, n) != LogName(s2, j, n)
  {
    var ni, nj := NatToString(i + 1), NatToString(j + 1);
    if ni == nj {
      NatToStringInjective(i + 1, j + 1);
    }
    SuffixesDiffer(LogPrefix + s1, LogPrefix + s2, ni, nj);
  }

  /** Names of one shape with equal-length prefixes differ when their
      numbers differ. */
  lemma SuffixesDiffer(p1: string, p2: string, x: string, y: string)
    requires |p1| == |p2| && x != y
    ensures p1 + "_" + x + ".log" != p2 + "_" + y + ".log"
  {
    var a, b := p1 + "_" + x + ".log", p2 + "_" + y + ".log";
    if |x| == |y| {
      var start := |p1| + 1;
      assert a[start..start + |x|] == x;
      assert b[start..start + |y|] == y;
    } else {
      assert |a| != |b|;
    }
  }
}
