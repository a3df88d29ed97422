/**
 Which texts FromString accepts and what each of them stands for, as a grammar that does not mention
 the parser, and the proof that the parser takes exactly the texts of this grammar.
 */
module CompositeDsnGrammar {
  import opened Octets
  import opened CompositeDsn
  import opened CompositeDsnReading
  import Decimals

  /**
   A text with all its characters: a single DSN, or a composite with what stands between its arguments,
   whether its parenthesis is closed, and the digits of its retry period.
   */
  datatype Written =
    | Word(dsn: string)
    | Call(kind: Kind, args: seq<Written>, separators: string, closed: bool, period: Option<string>)

  function Opening(kind: Kind): string {
    match kind
    case Failover => "failover("
    case RoundRobin => "roundrobin("
  }

  function PeriodSpelled(period: Option<string>): string {
    if period.Some? then "?retry_period=" + period.value else ""
  }

  function Closing(closed: bool): string { if closed then ")" else "" }

  function Spelled(w: Written): string
    decreases w, 1
  {
    match w
    case Word(dsn) => dsn
    case Call(kind, args, separators, closed, period) =>
      Opening(kind) + SpelledArgs(args, separators) + Closing(closed) + PeriodSpelled(period)
  }

  function SpelledArgs(args: seq<Written>, separators: string): string
    decreases args, 0
  {
    if args == [] then ""
    else if |args| == 1 || separators == "" then Spelled(args[0])
    else Spelled(args[0]) + [separators[0]] + SpelledArgs(args[1..], separators[1..])
  }

  /** A retry period in seconds, in 64-bit arithmetic, 0 if there is none. */
  function Seconds(period: Option<string>): int {
    if period.Some? && Decimals.AllDigits(period.value) then Wrap(Decimals.Value(period.value)) else 0
  }

  /** The transport a text stands for. */
  function Sense(w: Written): Resolved
    decreases w, 1
  {
    match w
    case Word(dsn) => Single(dsn)
    case Call(kind, args, _, _, period) => Composite(kind, Senses(args), RetryPeriod(Seconds(period)))
  }

  function Senses(args: seq<Written>): seq<Resolved>
    decreases args, 0
  {
    if args == [] then [] else [Sense(args[0])] + Senses(args[1..])
  }

  // ----- the grammar -----

  /** What may stand between an argument and the next: a space behind a single DSN, "&" behind a retry period, nearly anything behind a composite. */
  predicate Separates(arg: Written, c: char, next: Written) {
    match arg
    case Word(_) => c == ' '
    case Call(_, _, _, _, Some(_)) => c == '&'
    case Call(_, _, _, _, None) => c != ')' && !(c == '?' && next.Word? && "retry_period=" <= next.dsn)
  }

  /** There is an argument, and between any two of them one character that separates them. */
  predicate ArgsFit(args: seq<Written>, separators: string) {
    && args != [] && |separators| == |args| - 1
    && forall i :: 0 <= i < |separators| ==> Separates(args[i], separators[i], args[i + 1])
  }

  /** No retry period stands right before a closing parenthesis. */
  predicate MayClose(args: seq<Written>) {
    args != [] && (args[|args| - 1].Call? ==> args[|args| - 1].period.None?)
  }

  /** Accepted single DSNs, separated arguments, digits for retry periods. */
  predicate Loose(accepts: Accepts, w: Written)
    decreases w, 1
  {
    match w
    case Word(dsn) => accepts(dsn) && ' ' !in dsn && ')' !in dsn
    case Call(_, args, separators, closed, period) =>
      && ArgsFit(args, separators) && AllLoose(accepts, args) && (closed ==> MayClose(args))
      && (period.Some? ==> period.value != "" && Decimals.AllDigits(period.value))
  }

  predicate AllLoose(accepts: Accepts, args: seq<Written>)
    decreases args, 0
  {
    args == [] || (Loose(accepts, args[0]) && AllLoose(accepts, args[1..]))
  }

  /** Every parenthesis opens a composite or closes one, and all are closed. */
  predicate Tidy(w: Written)
    decreases w, 1
  {
    match w
    case Word(dsn) => '(' !in dsn
    case Call(_, args, separators, closed, _) => closed && '(' !in separators && AllTidy(args)
  }

  predicate AllTidy(args: seq<Written>)
    decreases args, 0
  {
    args == [] || (Tidy(args[0]) && AllTidy(args[1..]))
  }

  /** The text begins with a word that a parenthesis follows. */
  predicate Calls(dsn: string) {
    exists k :: 0 < k < |dsn| && dsn[k] == '(' && forall j :: 0 <= j < k ==> IsWordChar(dsn[j])
  }

  /** A text that is accepted: a single DSN that looks like no composite, or a composite with all its parentheses. */
  predicate Proper(accepts: Accepts, w: Written) {
    Loose(accepts, w) && if w.Word? then !Calls(w.dsn) else Tidy(w)
  }

  // ----- what follows an argument -----

  /** The text of `w` ends at `end`, where the parser finds nothing more of it. */
  predicate Stops(dsn: string, end: nat, w: Written) {
    end <= |dsn|
    && match w
       case Word(_) => Ends(dsn, end)
       case Call(_, _, _, closed, None) => !At(dsn, end, PERIOD_KEY) && (closed || end == |dsn|)
       case Call(_, _, _, _, Some(_)) => end == |dsn| || dsn[end] == '&'
  }

  lemma PeriodKeyIsLiteral(dsn: string, at: nat, digits: string)
    ensures PERIOD_KEY == "?retry_period=" && PeriodSpelled(Some(digits)) == PERIOD_KEY + digits
  {
  }

  lemma OpeningIsName(kind: Kind)
    ensures Opening(kind) == Name(kind) + "("
  {
  }

  // ----- every accepted text is one of the grammar -----

  lemma {:induction false} LeafEndIs(dsn: string, at: nat)
    requires at <= |dsn|
    ensures Ends(dsn, LeafEnd(dsn, at)) && ' ' !in dsn[at..LeafEnd(dsn, at)] && ')' !in dsn[at..LeafEnd(dsn, at)]
    decreases |dsn| - at
  {
    if at < |dsn| && dsn[at] != ' ' && dsn[at] != ')' {
      LeafEndIs(dsn, at + 1);
      var end := LeafEnd(dsn, at);
      assert dsn[at..end] == [dsn[at]] + dsn[at + 1..end];
    }
  }

  lemma WordIsSound(accepts: Accepts, dsn: string, at: nat) returns (w: Written)
    requires at <= |dsn| && !accepts("") && Keyword(dsn, at).None? && Parse(accepts, dsn, at).Ok?
    ensures Reads(accepts, dsn, at, w)
  {
    var end := LeafEnd(dsn, at);
    LeafEndIs(dsn, at);
    hide LeafEnd, Keyword, LooksLikeKeyword;
    w := Word(dsn[at..end]);
  }

  /** The parser made `w` of the text at `at`. */
  ghost predicate Reads(accepts: Accepts, dsn: string, at: nat, w: Written) {
    && at <= |dsn| && !accepts("") && Loose(accepts, w) && At(dsn, at, Spelled(w))
    && Parse(accepts, dsn, at) == Ok(Sense(w), at + |Spelled(w)|) && Stops(dsn, at + |Spelled(w)|, w)
  }

  lemma {:induction false} CutStops(s: string)
    ensures var r := BeforeAmpersand(s); |r| == |s| || s[|r|] == '&'
    decreases |s|
  {
    if s != "" && s[0] != '&' {
      CutStops(s[1..]);
    }
  }

  lemma PeriodIsSound(dsn: string, at: nat) returns (period: Option<string>)
    requires at <= |dsn| && Period(dsn, at).Ok?
    ensures At(dsn, at, PeriodSpelled(period)) && Period(dsn, at) == Ok(Seconds(period), at + |PeriodSpelled(period)|)
    ensures var end := at + |PeriodSpelled(period)|;
      if period.None? then !At(dsn, at, PERIOD_KEY)
      else period.value != "" && Decimals.AllDigits(period.value) && (end == |dsn| || dsn[end] == '&')
  {
    if !At(dsn, at, PERIOD_KEY) {
      period := None;
    } else {
      var start := at + |PERIOD_KEY|;
      var digits := BeforeAmpersand(dsn[start..]);
      CutStops(dsn[start..]);
      period := Some(digits);
      hide At, BeforeAmpersand, Wrap, Decimals.Value;
      PeriodKeyIsLiteral(dsn, at, digits);
      AtBoth(dsn, at, PERIOD_KEY, digits);
      AtHere(dsn, start, digits);
    }
  }

  // ----- arguments -----

  /** The loop over the arguments made `args` of the text at `at`. */
  ghost predicate ReadsArgs(accepts: Accepts, dsn: string, at: nat, args: seq<Written>, separators: string, closed: bool) {
    var text := SpelledArgs(args, separators) + Closing(closed);
    && at <= |dsn| && !accepts("") && AllLoose(accepts, args) && ArgsFit(args, separators) && (closed ==> MayClose(args))
    && At(dsn, at, text) && ParseArgs(accepts, dsn, at) == Ok(Senses(args), at + |text|)
    && (!closed ==> at + |text| == |dsn|)
  }

  lemma OneArg(accepts: Accepts, w: Written)
    requires Loose(accepts, w)
    ensures AllLoose(accepts, [w]) && ArgsFit([w], "") && SpelledArgs([w], "") == Spelled(w) && Senses([w]) == [Sense(w)]
  {
    hide Loose, Spelled, Sense;
    assert [w][1..] == [] && AllLoose(accepts, []) && Senses([]) == [];
  }

  lemma LastArgIsSound(accepts: Accepts, dsn: string, at: nat, w: Written, closed: bool)
    requires Reads(accepts, dsn, at, w)
    requires var end := at + |Spelled(w)|; if closed then end < |dsn| && dsn[end] == ')' else end == |dsn|
    ensures ReadsArgs(accepts, dsn, at, [w], "", closed)
  {
    hide *;
    ReadsStops(accepts, dsn, at, w);
    OneArg(accepts, w);
    ParsesLast(accepts, dsn, at, w);
    EndOfArg(dsn, at, w, closed);
    ReadsArgsParts(accepts, dsn, at, [w], "", closed);
  }

  lemma EndOfArg(dsn: string, at: nat, w: Written, closed: bool)
    requires At(dsn, at, Spelled(w)) && Stops(dsn, at + |Spelled(w)|, w)
    requires var end := at + |Spelled(w)|; if closed then end < |dsn| && dsn[end] == ')' else end == |dsn|
    ensures At(dsn, at, Spelled(w) + Closing(closed)) && |Closing(closed)| == (if closed then 1 else 0) && (closed ==> MayClose([w]))
  {
    hide Spelled, At;
    if closed {
      AtThenChar(dsn, at, Spelled(w), ")");
    } else {
      assert Spelled(w) + "" == Spelled(w);
    }
  }

  lemma AtThenChar(dsn: string, at: nat, first: string, c: string)
    requires At(dsn, at, first) && |c| == 1 && at + |first| < |dsn| && dsn[at + |first|] == c[0]
    ensures At(dsn, at, first + c)
  {
    AtBoth(dsn, at, first, c);
    assert dsn[at + |first|..at + |first| + 1] == c;
  }

  lemma ParsesLast(accepts: Accepts, dsn: string, at: nat, w: Written)
    requires Reads(accepts, dsn, at, w)
    ensures at <= |dsn| && !accepts("")
    ensures var end := at + |Spelled(w)|;
      && (end == |dsn| ==> ParseArgs(accepts, dsn, at) == Ok([Sense(w)], end))
      && (end < |dsn| && dsn[end] == ')' ==> ParseArgs(accepts, dsn, at) == Ok([Sense(w)], end + 1))
      && (end < |dsn| && dsn[end] != ')' ==>
            var more := ParseArgs(accepts, dsn, end + 1);
            ParseArgs(accepts, dsn, at) == if more.Wrong? then more else Ok([Sense(w)] + more.value, more.next))
  {
    hide Loose, Parse, Spelled, Sense, Stops;
  }

  lemma MoreArgs(accepts: Accepts, w: Written, c: char, args: seq<Written>, separators: string)
    requires Loose(accepts, w) && AllLoose(accepts, args) && ArgsFit(args, separators) && Separates(w, c, args[0])
    ensures AllLoose(accepts, [w] + args) && ArgsFit([w] + args, [c] + separators) && Senses([w] + args) == [Sense(w)] + Senses(args)
    ensures SpelledArgs([w] + args, [c] + separators) == Spelled(w) + [c] + SpelledArgs(args, separators)
    ensures MayClose(args) ==> MayClose([w] + args)
  {
    hide Loose, Spelled, Sense, Separates;
    var all, between := [w] + args, [c] + separators;
    assert all[1..] == args && between[1..] == separators;
    forall i | 0 <= i < |between| ensures Separates(all[i], between[i], all[i + 1]) {
      if i > 0 {
        assert Separates(args[i - 1], separators[i - 1], args[i]);
      }
    }
  }

  lemma ArgsBegin(args: seq<Written>, separators: string)
    requires ArgsFit(args, separators)
    ensures SpelledArgs(args, separators) == Spelled(args[0]) + SpelledArgs(args, separators)[|Spelled(args[0])|..]
    ensures |SpelledArgs(args, separators)| >= |Spelled(args[0])|
  {
    hide Spelled, Separates;
  }

  lemma SeparatesHere(dsn: string, end: nat, w: Written, next: Written)
    requires Stops(dsn, end, w) && end < |dsn| && dsn[end] != ')' && At(dsn, end + 1, Spelled(next))
    ensures Separates(w, dsn[end], next)
  {
    if dsn[end] == '?' && next.Word? && "retry_period=" <= next.dsn {
      PeriodAcross(dsn, end, next.dsn);
    }
  }

  lemma PeriodAcross(dsn: string, at: nat, next: string)
    requires at < |dsn| && dsn[at] == '?' && At(dsn, at + 1, next) && "retry_period=" <= next
    ensures At(dsn, at, PERIOD_KEY)
  {
    assert dsn[at + 1..at + 14] == dsn[at + 1..at + 1 + |next|][..13];
    assert dsn[at..at + 14] == "?" + dsn[at + 1..at + 14];
  }

  lemma FirstOfArgs(accepts: Accepts, dsn: string, at: nat, args: seq<Written>, separators: string, closed: bool)
    requires ReadsArgs(accepts, dsn, at, args, separators, closed)
    ensures args != [] && At(dsn, at, Spelled(args[0]))
  {
    hide Spelled, AllLoose, ParseArgs, Senses, SpelledArgs;
    ArgsBegin(args, separators);
    var rest := SpelledArgs(args, separators)[|Spelled(args[0])|..];
    hide At, ArgsFit, MayClose;
    AtBoth(dsn, at, SpelledArgs(args, separators), Closing(closed));
    AtBoth(dsn, at, Spelled(args[0]), rest);
  }

  lemma MoreArgsAreSound(
    accepts: Accepts, dsn: string, at: nat, w: Written, args: seq<Written>, separators: string, closed: bool)
    returns (all: seq<Written>, between: string)
    requires Reads(accepts, dsn, at, w) && at + |Spelled(w)| < |dsn| && dsn[at + |Spelled(w)|] != ')'
    requires ReadsArgs(accepts, dsn, at + |Spelled(w)| + 1, args, separators, closed)
    ensures ReadsArgs(accepts, dsn, at, all, between, closed)
    ensures all == [w] + args && between == [dsn[at + |Spelled(w)|]] + separators
  {
    hide *;
    ReadsStops(accepts, dsn, at, w);
    var c := dsn[at + |Spelled(w)|];
    all, between := [w] + args, [c] + separators;
    FirstOfArgs(accepts, dsn, at + |Spelled(w)| + 1, args, separators, closed);
    SeparatesHere(dsn, at + |Spelled(w)|, w, args[0]);
    ReadsArgsFacts(accepts, dsn, at + |Spelled(w)| + 1, args, separators, closed);
    MoreArgs(accepts, w, c, args, separators);
    MoreAt(dsn, at, Spelled(w), c, SpelledArgs(args, separators), Closing(closed));
    ParsesLast(accepts, dsn, at, w);
    ReadsArgsParts(accepts, dsn, at, all, between, closed);
  }

  lemma ReadsArgsFacts(accepts: Accepts, dsn: string, at: nat, args: seq<Written>, separators: string, closed: bool)
    requires ReadsArgs(accepts, dsn, at, args, separators, closed)
    ensures var text := SpelledArgs(args, separators) + Closing(closed);
      && at <= |dsn| && !accepts("") && AllLoose(accepts, args) && ArgsFit(args, separators) && (closed ==> MayClose(args))
      && At(dsn, at, text) && ParseArgs(accepts, dsn, at) == Ok(Senses(args), at + |text|) && (!closed ==> at + |text| == |dsn|)
  {
    hide At, AllLoose, ArgsFit, MayClose, SpelledArgs, Closing, ParseArgs, Senses;
  }

  lemma ReadsArgsParts(accepts: Accepts, dsn: string, at: nat, args: seq<Written>, separators: string, closed: bool)
    requires at <= |dsn| && !accepts("") && AllLoose(accepts, args) && ArgsFit(args, separators) && (closed ==> MayClose(args))
    requires var text := SpelledArgs(args, separators) + Closing(closed);
      At(dsn, at, text) && ParseArgs(accepts, dsn, at) == Ok(Senses(args), at + |text|) && (!closed ==> at + |text| == |dsn|)
    ensures ReadsArgs(accepts, dsn, at, args, separators, closed)
  {
    hide At, AllLoose, ArgsFit, MayClose, SpelledArgs, Closing, ParseArgs, Senses;
  }

  lemma ReadsStops(accepts: Accepts, dsn: string, at: nat, w: Written)
    requires Reads(accepts, dsn, at, w)
    ensures Stops(dsn, at + |Spelled(w)|, w) && Loose(accepts, w) && At(dsn, at, Spelled(w)) && !accepts("") && at + |Spelled(w)| <= |dsn|
  {
    hide Loose, Spelled, Stops, Parse, Sense, At;
  }

  lemma MoreAt(dsn: string, at: nat, first: string, c: char, rest: string, last: string)
    requires At(dsn, at, first) && at + |first| < |dsn| && dsn[at + |first|] == c && At(dsn, at + |first| + 1, rest + last)
    ensures At(dsn, at, first + [c] + rest + last)
  {
    AtThenChar(dsn, at, first, [c]);
    hide At;
    AtBoth(dsn, at, first + [c], rest + last);
    assert first + [c] + (rest + last) == first + [c] + rest + last;
  }

  // ----- composites -----

  lemma CallAt(dsn: string, at: nat, kind: Kind, args: seq<Written>, separators: string, closed: bool, period: Option<string>)
    requires Keyword(dsn, at) == Some(kind)
    requires var text := SpelledArgs(args, separators) + Closing(closed); var start := at + |Name(kind)| + 1;
      At(dsn, start, text) && At(dsn, start + |text|, PeriodSpelled(period))
    ensures var w := Call(kind, args, separators, closed, period);
      && At(dsn, at, Spelled(w))
      && at + |Spelled(w)| == at + |Name(kind)| + 1 + |SpelledArgs(args, separators) + Closing(closed)| + |PeriodSpelled(period)|
  {
    var text := SpelledArgs(args, separators) + Closing(closed);
    hide *;
    AtKeyword(dsn, at, kind);
    SpelledCall(kind, args, separators, closed, period);
    AtBoth(dsn, at, Opening(kind), text);
    AtBoth(dsn, at, Opening(kind) + text, PeriodSpelled(period));
  }

  /** What a composite is made of, right behind its opening parenthesis. */
  lemma CallIsSound(accepts: Accepts, dsn: string, at: nat, kind: Kind, args: seq<Written>, separators: string, closed: bool) returns (w: Written)
    requires at <= |dsn| && !accepts("") && Keyword(dsn, at) == Some(kind) && Balanced(dsn, at + |Name(kind)|) && Parse(accepts, dsn, at).Ok?
    requires ReadsArgs(accepts, dsn, at + |Name(kind)| + 1, args, separators, closed)
    ensures Reads(accepts, dsn, at, w) && w == Call(kind, args, separators, closed, w.period)
  {
    hide *;
    var start := at + |Name(kind)| + 1;
    ReadsArgsFacts(accepts, dsn, start, args, separators, closed);
    var end := start + |SpelledArgs(args, separators) + Closing(closed)|;
    ParseKeyword(accepts, dsn, at, kind);
    FinishedPeriod(kind, Senses(args), Period(dsn, end));
    var period := PeriodIsSound(dsn, end);
    w := Call(kind, args, separators, closed, period);
    CallAt(dsn, at, kind, args, separators, closed, period);
    CallReads(accepts, dsn, at, kind, args, separators, closed, period, end);
  }

  lemma FinishedPeriod(kind: Kind, args: seq<Resolved>, period: Parsed<int>)
    ensures Finish(kind, args, period).Ok? ==> period.Ok?
    ensures period.Ok? ==> Finish(kind, args, period) == Ok(Composite(kind, args, RetryPeriod(period.value)), period.next)
  {
  }

  lemma CallReads(accepts: Accepts, dsn: string, at: nat, kind: Kind, args: seq<Written>, separators: string, closed: bool, period: Option<string>, end: nat)
    requires var w := Call(kind, args, separators, closed, period);
      && at <= |dsn| && !accepts("") && AllLoose(accepts, args) && ArgsFit(args, separators) && (closed ==> MayClose(args))
      && At(dsn, at, Spelled(w)) && at + |Spelled(w)| == end + |PeriodSpelled(period)|
      && Parse(accepts, dsn, at) == Ok(Composite(kind, Senses(args), RetryPeriod(Seconds(period))), end + |PeriodSpelled(period)|)
    requires !closed ==> end == |dsn|
    requires var next := end + |PeriodSpelled(period)|;
      && next <= |dsn|
      && (if period.None? then !At(dsn, end, PERIOD_KEY)
          else period.value != "" && Decimals.AllDigits(period.value) && (next == |dsn| || dsn[next] == '&'))
    ensures Reads(accepts, dsn, at, Call(kind, args, separators, closed, period))
  {
    hide *;
    var w := Call(kind, args, separators, closed, period);
    StopsCall(dsn, end, w);
    LooseCall(accepts, w);
    ReadsParts(accepts, dsn, at, w);
  }

  lemma StopsCall(dsn: string, end: nat, w: Written)
    requires w.Call? && (!w.closed ==> end == |dsn|)
    requires var next := end + |PeriodSpelled(w.period)|;
      next <= |dsn| && if w.period.None? then !At(dsn, end, PERIOD_KEY) else next == |dsn| || dsn[next] == '&'
    ensures Stops(dsn, end + |PeriodSpelled(w.period)|, w)
  {
    assert |PeriodSpelled(None)| == 0;
    hide At, PeriodSpelled;
  }

  lemma LooseCall(accepts: Accepts, w: Written)
    requires w.Call? && AllLoose(accepts, w.args) && ArgsFit(w.args, w.separators) && (w.closed ==> MayClose(w.args))
    requires w.period.Some? ==> w.period.value != "" && Decimals.AllDigits(w.period.value)
    ensures Loose(accepts, w) && Sense(w) == Composite(w.kind, Senses(w.args), RetryPeriod(Seconds(w.period)))
  {
    hide AllLoose, ArgsFit, MayClose, Decimals.AllDigits, Senses, Seconds, RetryPeriod;
  }

  lemma AtKeyword(dsn: string, at: nat, kind: Kind)
    requires Keyword(dsn, at) == Some(kind)
    ensures At(dsn, at, Opening(kind)) && |Opening(kind)| == |Name(kind)| + 1
  {
    OpeningIsName(kind);
  }

  lemma SpelledCall(kind: Kind, args: seq<Written>, separators: string, closed: bool, period: Option<string>)
    ensures Spelled(Call(kind, args, separators, closed, period))
         == Opening(kind) + (SpelledArgs(args, separators) + Closing(closed)) + PeriodSpelled(period)
  {
    hide SpelledArgs, Closing, PeriodSpelled, Opening;
    assert Opening(kind) + SpelledArgs(args, separators) + Closing(closed) == Opening(kind) + (SpelledArgs(args, separators) + Closing(closed));
  }

  lemma {:induction false} ParseIsSound(accepts: Accepts, dsn: string, at: nat) returns (w: Written)
    requires at <= |dsn| && !accepts("") && Parse(accepts, dsn, at).Ok?
    ensures Reads(accepts, dsn, at, w)
    decreases |dsn| - at, 0
  {
    var keyword := Keyword(dsn, at);
    hide ParseArgs, Reads, ReadsArgs, Balanced, Period, RetryPeriod, LooksLikeKeyword;
    if keyword.None? {
      w := WordIsSound(accepts, dsn, at);
    } else {
      KeywordLength(dsn, at);
      var args, separators, closed := ArgsAreSound(accepts, dsn, at + |Name(keyword.value)| + 1);
      w := CallIsSound(accepts, dsn, at, keyword.value, args, separators, closed);
    }
  }

  lemma {:induction false} ArgsAreSound(accepts: Accepts, dsn: string, at: nat) returns (args: seq<Written>, separators: string, closed: bool)
    requires at <= |dsn| && !accepts("") && ParseArgs(accepts, dsn, at).Ok?
    ensures ReadsArgs(accepts, dsn, at, args, separators, closed)
    decreases |dsn| - at, 1
  {
    hide Parse, Reads, ReadsArgs;
    var w := ParseIsSound(accepts, dsn, at);
    ReadsHere(accepts, dsn, at, w);
    var end := at + |Spelled(w)|;
    closed := end < |dsn|;
    if end == |dsn| || dsn[end] == ')' {
      args, separators := [w], "";
      LastArgIsSound(accepts, dsn, at, w, closed);
    } else {
      args, separators, closed := ArgsAreSound(accepts, dsn, end + 1);
      args, separators := MoreArgsAreSound(accepts, dsn, at, w, args, separators, closed);
    }
  }

  lemma ReadsHere(accepts: Accepts, dsn: string, at: nat, w: Written)
    requires Reads(accepts, dsn, at, w)
    ensures at <= |dsn| && !accepts("") && Parse(accepts, dsn, at) == Ok(Sense(w), at + |Spelled(w)|) && at + |Spelled(w)| <= |dsn|
  {
    hide Loose, Spelled, Sense, Stops, Parse;
  }

  // ----- parentheses -----

  predicate NeverNegative(s: string) {
    forall k :: 0 <= k <= |s| ==> Depth(s[..k]) >= 0
  }

  lemma NeverNegativeBoth(a: string, b: string)
    requires NeverNegative(a) && NeverNegative(b)
    ensures NeverNegative(a + b) && Depth(a + b) == Depth(a) + Depth(b) && Depth(a) >= 0 && Depth(b) >= 0
  {
    hide Depth;
    DepthConcat(a, b);
    forall k | 0 <= k <= |a + b| ensures Depth((a + b)[..k]) >= 0 {
      PrefixOfBoth(a, b, k);
    }
    assert a[..|a|] == a && b[..|b|] == b;
  }

  lemma PrefixOfBoth(a: string, b: string, k: nat)
    requires NeverNegative(a) && NeverNegative(b) && k <= |a + b|
    ensures Depth((a + b)[..k]) >= 0
  {
    hide Depth;
    assert a[..|a|] == a;
    if k <= |a| {
      assert (a + b)[..k] == a[..k];
    } else {
      assert (a + b)[..k] == a + b[..k - |a|];
      DepthConcat(a, b[..k - |a|]);
    }
  }

  lemma {:induction false} DepthOfOpenings(s: string)
    requires ')' !in s
    ensures Depth(s) >= 0 && (Depth(s) == 0 <==> '(' !in s)
    decreases |s|
  {
    if s != "" {
      var shorter := s[..|s| - 1];
      assert s == shorter + [s[|s| - 1]];
      DepthOfOpenings(shorter);
    }
  }

  lemma NeverNegativeWord(s: string)
    requires ')' !in s
    ensures NeverNegative(s) && (Depth(s) == 0 <==> '(' !in s)
  {
    hide Depth;
    DepthOfOpenings(s);
    forall k | 0 <= k <= |s| ensures Depth(s[..k]) >= 0 {
      DepthOfOpenings(s[..k]);
    }
  }

  lemma AddClosing(s: string, closed: bool)
    requires NeverNegative(s) && Depth(s) >= 1
    ensures NeverNegative(s + Closing(closed)) && Depth(s + Closing(closed)) == Depth(s) - if closed then 1 else 0
  {
    var all := s + Closing(closed);
    assert closed ==> all[..|s|] == s && all[|s|] == ')';
    assert !closed ==> all == s;
    assert closed ==> Depth(all) == Depth(s) - 1;
    hide Depth;
    forall k | 0 <= k <= |all| ensures Depth(all[..k]) >= 0 {
      if k <= |s| {
        assert all[..k] == s[..k];
      } else {
        assert all[..k] == all;
      }
    }
  }

  lemma DepthOfOpening(kind: Kind)
    ensures NeverNegative(Opening(kind)) && Depth(Opening(kind)) == 1
  {
    NameIsAWord(kind);
    DepthOfWord(Name(kind));
    OpeningIsName(kind);
    DepthOfParens();
    hide Depth;
    DepthConcat(Name(kind), "(");
    NeverNegativeWord(Opening(kind));
  }

  lemma DepthOfPeriod(period: Option<string>)
    requires period.Some? ==> Decimals.AllDigits(period.value)
    ensures NeverNegative(PeriodSpelled(period)) && Depth(PeriodSpelled(period)) == 0
  {
    var s := PeriodSpelled(period);
    if period.Some? {
      forall i | 0 <= i < |period.value| ensures period.value[i] != '(' && period.value[i] != ')' {
        assert Decimals.IsDigit(period.value[i]);
      }
    }
    hide Depth;
    assert '(' !in s && ')' !in s;
    NeverNegativeWord(s);
  }

  lemma CallDepth(kind: Kind, inner: string, closed: bool, period: Option<string>)
    requires NeverNegative(inner) && (period.Some? ==> Decimals.AllDigits(period.value))
    ensures var s := Opening(kind) + inner + Closing(closed) + PeriodSpelled(period);
      NeverNegative(s) && Depth(s) == 1 + Depth(inner) - (if closed then 1 else 0) && Depth(inner) >= 0
  {
    hide *;
    DepthOfOpening(kind);
    NeverNegativeBoth(Opening(kind), inner);
    AddClosing(Opening(kind) + inner, closed);
    DepthOfPeriod(period);
    NeverNegativeBoth(Opening(kind) + inner + Closing(closed), PeriodSpelled(period));
  }

  lemma {:induction false} WrittenDepth(accepts: Accepts, w: Written)
    requires Loose(accepts, w)
    ensures NeverNegative(Spelled(w)) && (Depth(Spelled(w)) == 0 <==> Tidy(w))
    decreases w, 1
  {
    hide Depth, NeverNegative, SpelledArgs, AllTidy, AllLoose, ArgsFit, MayClose, Opening, Closing, PeriodSpelled, Decimals.AllDigits;
    match w
    case Word(dsn) => NeverNegativeWord(dsn);
    case Call(kind, args, separators, closed, period) =>
      ArgsDepth(accepts, args, separators);
      CallDepth(kind, SpelledArgs(args, separators), closed, period);
  }

  lemma {:induction false} ArgsDepth(accepts: Accepts, args: seq<Written>, separators: string)
    requires AllLoose(accepts, args) && ArgsFit(args, separators)
    ensures var s := SpelledArgs(args, separators); NeverNegative(s) && (Depth(s) == 0 <==> AllTidy(args) && '(' !in separators)
    decreases args, 0
  {
    hide *;
    FirstFits(accepts, args, separators);
    WrittenDepth(accepts, args[0]);
    if |args| == 1 {
      OneDepth(args, separators);
    } else {
      ArgsDepth(accepts, args[1..], separators[1..]);
      MoreDepth(args, separators);
    }
  }

  lemma FirstFits(accepts: Accepts, args: seq<Written>, separators: string)
    requires AllLoose(accepts, args) && ArgsFit(args, separators)
    ensures args != [] && |separators| == |args| - 1 && Loose(accepts, args[0])
    ensures |args| > 1 ==> AllLoose(accepts, args[1..]) && ArgsFit(args[1..], separators[1..]) && separators[0] != ')'
  {
    hide Loose;
    if |args| > 1 {
      assert Separates(args[0], separators[0], args[1]);
      forall i | 0 <= i < |separators| - 1 ensures Separates(args[1..][i], separators[1..][i], args[1..][i + 1]) {
        assert Separates(args[i + 1], separators[i + 1], args[i + 2]);
      }
    }
  }

  lemma OneDepth(args: seq<Written>, separators: string)
    requires |args| == 1 && separators == "" && NeverNegative(Spelled(args[0])) && (Depth(Spelled(args[0])) == 0 <==> Tidy(args[0]))
    ensures var s := SpelledArgs(args, separators); NeverNegative(s) && (Depth(s) == 0 <==> AllTidy(args) && '(' !in separators)
  {
    assert args[1..] == [] && AllTidy([]);
    hide Spelled, Tidy, NeverNegative, Depth;
  }

  lemma MoreDepth(args: seq<Written>, separators: string)
    requires |args| > 1 && |separators| == |args| - 1 && separators[0] != ')'
    requires NeverNegative(Spelled(args[0])) && (Depth(Spelled(args[0])) == 0 <==> Tidy(args[0]))
    requires var s := SpelledArgs(args[1..], separators[1..]);
      NeverNegative(s) && (Depth(s) == 0 <==> AllTidy(args[1..]) && '(' !in separators[1..])
    ensures var s := SpelledArgs(args, separators); NeverNegative(s) && (Depth(s) == 0 <==> AllTidy(args) && '(' !in separators)
  {
    var first, between, rest := Spelled(args[0]), [separators[0]], SpelledArgs(args[1..], separators[1..]);
    assert SpelledArgs(args, separators) == first + between + rest;
    assert AllTidy(args) <==> Tidy(args[0]) && AllTidy(args[1..]);
    assert '(' in separators <==> separators[0] == '(' || '(' in separators[1..];
    assert '(' in between <==> separators[0] == '(';
    hide *;
    NeverNegativeWord(between);
    NeverNegativeBoth(first, between);
    NeverNegativeBoth(first + between, rest);
  }

  lemma LooseArgs(accepts: Accepts, w: Written)
    requires w.Call? && Loose(accepts, w)
    ensures AllLoose(accepts, w.args) && ArgsFit(w.args, w.separators) && (w.closed ==> MayClose(w.args))
    ensures w.period.Some? ==> w.period.value != "" && Decimals.AllDigits(w.period.value)
    ensures Tidy(w) <==> w.closed && '(' !in w.separators && AllTidy(w.args)
    ensures Spelled(w) == Opening(w.kind) + SpelledArgs(w.args, w.separators) + Closing(w.closed) + PeriodSpelled(w.period)
  {
    hide AllLoose, ArgsFit, MayClose, AllTidy, Decimals.AllDigits, Opening, SpelledArgs, Closing, PeriodSpelled;
  }

  lemma DepthOfPeriodPrefix(period: Option<string>, k: nat)
    requires k <= |PeriodSpelled(period)| && (period.Some? ==> Decimals.AllDigits(period.value))
    ensures Depth(PeriodSpelled(period)[..k]) == 0
  {
    var s := PeriodSpelled(period);
    if period.Some? {
      forall i | 0 <= i < |period.value| ensures period.value[i] != '(' && period.value[i] != ')' {
        assert Decimals.IsDigit(period.value[i]);
      }
    }
    hide Depth;
    assert forall i :: 0 <= i < |s| ==> s[i] != '(' && s[i] != ')';
    DepthOfWord(s[..k]);
  }

  /** The first parenthesis stays open up to the one that closes it. */
  lemma OpenWithin(inner: string, n: nat)
    requires NeverNegative(inner) && n <= |inner|
    ensures Depth("(" + inner[..n]) >= 1
  {
    hide Depth;
    DepthOfParens();
    DepthConcat("(", inner[..n]);
  }

  lemma ClosedBeyond(inner: string, closed: bool, tail: string)
    requires Depth(tail) == 0
    ensures Depth("(" + inner + Closing(closed) + tail) == 1 + Depth(inner) - if closed then 1 else 0
  {
    DepthOfWord("");
    hide Depth;
    DepthOfParens();
    DepthConcat("(", inner);
    DepthConcat("(" + inner, Closing(closed));
    DepthConcat("(" + inner + Closing(closed), tail);
  }

  lemma OpenUntil(kind: Kind, inner: string, closed: bool, period: Option<string>, end: nat)
    requires NeverNegative(inner) && (period.Some? ==> Decimals.AllDigits(period.value))
    requires var dsn := Opening(kind) + inner + Closing(closed) + PeriodSpelled(period);
      |Name(kind)| < end <= |dsn| && Depth(dsn[|Name(kind)|..end]) == 0
    ensures closed && Depth(inner) == 0
  {
    var n := end - |Name(kind)|;
    OpeningIsName(kind);
    BehindName(kind, inner, Closing(closed), PeriodSpelled(period), n);
    assert |Closing(closed)| == if closed then 1 else 0;
    hide *;
    if n <= 1 + |inner| {
      OpenWithin(inner, n - 1);
    } else {
      var m := n - 1 - |inner| - |Closing(closed)|;
      DepthOfPeriodPrefix(period, m);
      ClosedBeyond(inner, closed, PeriodSpelled(period)[..m]);
      WholeDepth(inner);
    }
  }

  lemma WholeDepth(s: string)
    requires NeverNegative(s)
    ensures Depth(s) >= 0
  {
    assert s[..|s|] == s;
  }

  lemma BehindName(kind: Kind, inner: string, closing: string, period: string, n: nat)
    requires 0 < n <= 1 + |inner| + |closing| + |period| && |closing| <= 1
    ensures var dsn := Opening(kind) + inner + closing + period;
      && |dsn| == |Name(kind)| + 1 + |inner| + |closing| + |period|
      && dsn[|Name(kind)|..|Name(kind)| + n] ==
           if n <= 1 + |inner| then "(" + inner[..n - 1] else "(" + inner + closing + period[..n - 1 - |inner| - |closing|]
  {
    OpeningIsName(kind);
    hide *;
    var dsn, tail := Opening(kind) + inner + closing + period, "(" + inner + closing + period;
    assert dsn == Name(kind) + tail;
    assert dsn[|Name(kind)|..|Name(kind)| + n] == tail[..n];
  }

  /** A whole text that is a composite has a parenthesis that closes its first one only if all its parentheses match. */
  lemma BalancedIsTidy(accepts: Accepts, w: Written)
    requires w.Call? && Loose(accepts, w) && Balanced(Spelled(w), |Name(w.kind)|)
    ensures Tidy(w)
  {
    var open, dsn, inner := |Name(w.kind)|, Spelled(w), SpelledArgs(w.args, w.separators);
    var end :| open < end <= |dsn| && Depth(dsn[open..end]) == 0;
    hide Loose, Tidy, Spelled, SpelledArgs, Depth, NeverNegative, Balanced;
    LooseArgs(accepts, w);
    ArgsDepth(accepts, w.args, w.separators);
    OpenUntil(w.kind, inner, w.closed, w.period, end);
  }

  // ----- whole texts -----

  lemma {:induction false} WordEndIs(dsn: string, at: nat, k: nat)
    requires at <= k < |dsn| && !IsWordChar(dsn[k]) && forall j :: at <= j < k ==> IsWordChar(dsn[j])
    ensures WordEnd(dsn, at) == k
    decreases k - at
  {
    if at < k {
      WordEndIs(dsn, at + 1, k);
    }
  }

  lemma {:induction false} WordEndStops(dsn: string, at: nat)
    requires at <= |dsn|
    ensures forall j :: at <= j < WordEnd(dsn, at) ==> IsWordChar(dsn[j])
    decreases |dsn| - at
  {
    if at < |dsn| && IsWordChar(dsn[at]) {
      WordEndStops(dsn, at + 1);
    }
  }

  lemma LooksIsCalls(dsn: string)
    ensures LooksLikeKeyword(dsn, 0) <==> Calls(dsn)
  {
    WordEndStops(dsn, 0);
    if Calls(dsn) {
      var k :| 0 < k < |dsn| && dsn[k] == '(' && forall j :: 0 <= j < k ==> IsWordChar(dsn[j]);
      WordEndIs(dsn, 0, k);
    }
  }

  lemma WhatWasParsed(accepts: Accepts, dsn: string)
    requires !accepts("") && Parse(accepts, dsn, 0).Ok?
    ensures var t := Parse(accepts, dsn, 0).value;
      if t.Composite? then Keyword(dsn, 0) == Some(t.kind) && Balanced(dsn, |Name(t.kind)|) else !LooksLikeKeyword(dsn, 0)
  {
    if Keyword(dsn, 0).Some? {
      KeywordLength(dsn, 0);
    }
    hide Balanced, LooksLikeKeyword, ParseArgs, Period, RetryPeriod, Keyword;
  }

  lemma AtAll(dsn: string, text: string)
    requires At(dsn, 0, text) && |text| == |dsn|
    ensures text == dsn
  {
    assert dsn[0..|dsn|] == dsn;
  }

  lemma SenseKind(w: Written)
    ensures Sense(w).Composite? <==> w.Call?
    ensures w.Call? ==> Sense(w).kind == w.kind
  {
  }

  /** Every text that FromString accepts is one of the grammar, consumed whole, and stands for what the parser made of it. */
  lemma AcceptedIsWritten(accepts: Accepts, dsn: string) returns (w: Written)
    requires !accepts("") && Resolve(accepts, dsn).Ok?
    ensures Proper(accepts, w) && Spelled(w) == dsn && Resolve(accepts, dsn) == Ok(Sense(w), |dsn|)
  {
    hide Parse, Loose, Spelled, Sense, Tidy, Calls, Reads, At, Balanced, LooksLikeKeyword, Keyword, Stops;
    w := ParseIsSound(accepts, dsn, 0);
    ReadsHere(accepts, dsn, 0, w);
    ReadsStops(accepts, dsn, 0, w);
    AtAll(dsn, Spelled(w));
    WhatWasParsed(accepts, dsn);
    SenseKind(w);
    if w.Call? {
      BalancedIsTidy(accepts, w);
    } else {
      LooksIsCalls(dsn);
      SpelledWord(w);
    }
  }

  lemma SpelledWord(w: Written)
    requires w.Word?
    ensures Spelled(w) == w.dsn
  {
  }

  // ----- every text of the grammar is accepted -----

  lemma PeriodIsRead(dsn: string, at: nat, period: Option<string>)
    requires At(dsn, at, PeriodSpelled(period))
    requires if period.None? then !At(dsn, at, PERIOD_KEY) else period.value != "" && Decimals.AllDigits(period.value)
    requires var end := at + |PeriodSpelled(period)|; period.Some? ==> end == |dsn| || dsn[end] == '&'
    ensures Period(dsn, at) == Ok(Seconds(period), at + |PeriodSpelled(period)|)
  {
    assert at <= |dsn|;
    hide *;
    if period.None? {
      NoneSpelled();
      NoPeriodAt(dsn, at);
      NoSeconds();
    } else {
      DigitsAreRead(dsn, at, period.value);
    }
  }

  lemma NoSeconds()
    ensures Seconds(None) == 0
  {
  }

  lemma DigitsAreRead(dsn: string, at: nat, digits: string)
    requires At(dsn, at, PeriodSpelled(Some(digits))) && digits != "" && Decimals.AllDigits(digits)
    requires var end := at + |PeriodSpelled(Some(digits))|; end == |dsn| || dsn[end] == '&'
    ensures Period(dsn, at) == Ok(Seconds(Some(digits)), at + |PeriodSpelled(Some(digits))|)
  {
    hide At, Wrap, Decimals.Value, Decimals.AllDigits, BeforeAmpersand, PeriodSpelled;
    PeriodKeyIsLiteral(dsn, at, digits);
    AtBoth(dsn, at, PERIOD_KEY, digits);
    DigitsEnd(dsn, at + |PERIOD_KEY|, digits);
  }

  lemma DigitsEnd(dsn: string, start: nat, digits: string)
    requires At(dsn, start, digits) && Decimals.AllDigits(digits)
    requires var end := start + |digits|; end == |dsn| || dsn[end] == '&'
    ensures BeforeAmpersand(dsn[start..]) == digits
  {
    var end := start + |digits|;
    assert dsn[start..] == digits + dsn[end..];
    DigitsHaveNoAmpersand(digits);
    CutBehind(digits, dsn[end..]);
    assert end < |dsn| ==> dsn[end..][0] == '&';
    assert BeforeAmpersand(dsn[end..]) == "";
  }

  lemma WordIsRead(accepts: Accepts, dsn: string, at: nat, w: Written)
    requires !accepts("") && w.Word? && Loose(accepts, w) && Tidy(w) && At(dsn, at, Spelled(w)) && Stops(dsn, at + |Spelled(w)|, w)
    ensures Reads(accepts, dsn, at, w)
  {
    SpelledWord(w);
    assert CleanLeaf(w.dsn);
    ParseLeaf(accepts, dsn, at, w.dsn);
    hide Parse, At, CleanLeaf, Ends;
  }

  lemma CallParts(dsn: string, at: nat, kind: Kind, inner: string, period: string)
    requires At(dsn, at, Opening(kind) + inner + Closing(true) + period)
    ensures At(dsn, at, Name(kind) + "(" + inner + ")" + period)
  {
    OpeningIsName(kind);
  }

  lemma CallParses(accepts: Accepts, dsn: string, at: nat, kind: Kind, inner: string, args: seq<Resolved>, period: string)
    requires !accepts("") && Depth(inner) == 0 && At(dsn, at, Opening(kind) + inner + Closing(true) + period)
    requires var start := at + |Name(kind)| + 1; start <= |dsn| && ParseArgs(accepts, dsn, start) == Ok(args, start + |inner| + 1)
    ensures var end := at + |Name(kind)| + |inner| + 2;
      && end <= |dsn| && At(dsn, end, period) && at <= |dsn|
      && Parse(accepts, dsn, at) == Finish(kind, args, Period(dsn, end))
  {
    hide *;
    DepthInParens(inner);
    CallParts(dsn, at, kind, inner, period);
    ParseGroup(accepts, dsn, at, kind, inner, period);
  }

  lemma ArgsParse(accepts: Accepts, dsn: string, at: nat, args: seq<Written>, separators: string)
    requires ReadsArgs(accepts, dsn, at, args, separators, true)
    ensures at <= |dsn| && !accepts("") && ParseArgs(accepts, dsn, at) == Ok(Senses(args), at + |SpelledArgs(args, separators)| + 1)
  {
    hide At, AllLoose, ArgsFit, MayClose, SpelledArgs, ParseArgs, Senses;
  }

  lemma PeriodHere(dsn: string, end: nat, w: Written)
    requires w.Call? && At(dsn, end, PeriodSpelled(w.period)) && Stops(dsn, end + |PeriodSpelled(w.period)|, w)
    requires w.period.Some? ==> w.period.value != "" && Decimals.AllDigits(w.period.value)
    ensures Period(dsn, end) == Ok(Seconds(w.period), end + |PeriodSpelled(w.period)|)
  {
    NoneSpelled();
    hide *;
    StopsMeans(dsn, end + |PeriodSpelled(w.period)|, w);
    PeriodIsRead(dsn, end, w.period);
  }

  lemma CallEnds(accepts: Accepts, dsn: string, at: nat, w: Written, end: nat)
    requires w.Call? && !accepts("") && Loose(accepts, w) && At(dsn, at, Spelled(w)) && Stops(dsn, at + |Spelled(w)|, w) && at <= |dsn|
    requires at + |Spelled(w)| == end + |PeriodSpelled(w.period)|
    requires Period(dsn, end) == Ok(Seconds(w.period), end + |PeriodSpelled(w.period)|)
    requires Parse(accepts, dsn, at) == Finish(w.kind, Senses(w.args), Period(dsn, end))
    ensures Reads(accepts, dsn, at, w)
  {
    hide *;
    FinishedPeriod(w.kind, Senses(w.args), Period(dsn, end));
    LooseArgs(accepts, w);
    LooseCall(accepts, w);
    ReadsParts(accepts, dsn, at, w);
  }

  lemma CallIsRead(accepts: Accepts, dsn: string, at: nat, w: Written)
    requires !accepts("") && w.Call? && Loose(accepts, w) && Tidy(w) && At(dsn, at, Spelled(w)) && Stops(dsn, at + |Spelled(w)|, w)
    requires ReadsArgs(accepts, dsn, at + |Name(w.kind)| + 1, w.args, w.separators, true)
    ensures Reads(accepts, dsn, at, w)
  {
    hide *;
    LooseArgs(accepts, w);
    ArgsDepth(accepts, w.args, w.separators);
    ArgsParse(accepts, dsn, at + |Name(w.kind)| + 1, w.args, w.separators);
    var end := CallBehind(accepts, dsn, at, w, SpelledArgs(w.args, w.separators));
    PeriodHere(dsn, end, w);
    CallEnds(accepts, dsn, at, w, end);
  }

  lemma CallBehind(accepts: Accepts, dsn: string, at: nat, w: Written, inner: string) returns (end: nat)
    requires w.Call? && !accepts("") && Depth(inner) == 0 && At(dsn, at, Spelled(w))
    requires Spelled(w) == Opening(w.kind) + inner + Closing(true) + PeriodSpelled(w.period)
    requires var start := at + |Name(w.kind)| + 1; start <= |dsn| && ParseArgs(accepts, dsn, start) == Ok(Senses(w.args), start + |inner| + 1)
    ensures at <= |dsn| && end <= |dsn| && at + |Spelled(w)| == end + |PeriodSpelled(w.period)| && At(dsn, end, PeriodSpelled(w.period))
    ensures Parse(accepts, dsn, at) == Finish(w.kind, Senses(w.args), Period(dsn, end))
  {
    hide *;
    CallLength(w.kind, inner, PeriodSpelled(w.period));
    end := at + |Name(w.kind)| + |inner| + 2;
    CallParses(accepts, dsn, at, w.kind, inner, Senses(w.args), PeriodSpelled(w.period));
  }

  lemma NoneSpelled()
    ensures PeriodSpelled(None) == ""
  {
  }

  lemma CallLength(kind: Kind, inner: string, period: string)
    ensures |Opening(kind) + inner + Closing(true) + period| == |Name(kind)| + |inner| + 2 + |period|
  {
    OpeningIsName(kind);
  }

  lemma DepthInParens(inner: string)
    requires Depth(inner) == 0
    ensures Depth("(" + inner + ")") == 0
  {
    DepthOfWord("");
    hide Depth;
    DepthOfGroup("", inner, "");
  }

  lemma StopsMeans(dsn: string, end: nat, w: Written)
    requires Stops(dsn, end, w) && w.Call?
    ensures end <= |dsn| && if w.period.None? then !At(dsn, end, PERIOD_KEY) else end == |dsn| || dsn[end] == '&'
  {
    hide At;
  }

  lemma ReadsParts(accepts: Accepts, dsn: string, at: nat, w: Written)
    requires at <= |dsn| && !accepts("") && Loose(accepts, w) && At(dsn, at, Spelled(w))
    requires Parse(accepts, dsn, at) == Ok(Sense(w), at + |Spelled(w)|) && Stops(dsn, at + |Spelled(w)|, w)
    ensures Reads(accepts, dsn, at, w)
  {
    hide Loose, At, Spelled, Parse, Sense, Stops;
  }

  /** The arguments stand at `at`, and the closing parenthesis behind them. */
  predicate ArgsWritten(dsn: string, at: nat, args: seq<Written>, separators: string) {
    ArgsFit(args, separators) && At(dsn, at, SpelledArgs(args, separators) + ")")
  }

  lemma FirstWritten(dsn: string, at: nat, args: seq<Written>, separators: string)
    requires ArgsWritten(dsn, at, args, separators)
    ensures args != [] && |separators| == |args| - 1
    ensures var end := at + |Spelled(args[0])|;
      && At(dsn, at, Spelled(args[0])) && end < |dsn|
      && dsn[end] == (if |args| == 1 then ')' else separators[0])
      && (|args| > 1 ==> ArgsWritten(dsn, end + 1, args[1..], separators[1..]) && Separates(args[0], separators[0], args[1]))
  {
    var first := Spelled(args[0]);
    if |args| == 1 {
      assert SpelledArgs(args, separators) == first;
      hide *;
      SplitOff(dsn, at, first, ")", "");
    } else {
      var rest := SpelledArgs(args[1..], separators[1..]);
      assert SpelledArgs(args, separators) == first + [separators[0]] + rest;
      RestFits(args, separators);
      hide Spelled, SpelledArgs, At, ArgsFit, Separates;
      assert first + [separators[0]] + rest + ")" == first + ([separators[0]] + (rest + ")"));
      SplitOff(dsn, at, first, [separators[0]], rest + ")");
    }
  }

  lemma RestFits(args: seq<Written>, separators: string)
    requires ArgsFit(args, separators) && |args| > 1
    ensures ArgsFit(args[1..], separators[1..]) && Separates(args[0], separators[0], args[1])
  {
    hide Separates;
    forall i | 0 <= i < |separators| - 1 ensures Separates(args[1..][i], separators[1..][i], args[1..][i + 1]) {
      assert Separates(args[i + 1], separators[i + 1], args[i + 2]);
    }
  }

  /** Behind a single DSN that is an argument stands a space or the closing parenthesis. */
  lemma BehindFirstWord(dsn: string, at: nat, args: seq<Written>, separators: string)
    requires ArgsWritten(dsn, at, args, separators) && args[0].Word?
    ensures var end := at + |args[0].dsn|; At(dsn, at, args[0].dsn) && end < |dsn| && (dsn[end] == ' ' || dsn[end] == ')')
  {
    SpelledWord(args[0]);
    hide At, ArgsFit, ArgsWritten;
    FirstWritten(dsn, at, args, separators);
  }

  lemma BehindFirstCall(dsn: string, at: nat, args: seq<Written>, separators: string)
    requires ArgsWritten(dsn, at, args, separators) && args[0].Call?
    ensures At(dsn, at, Opening(args[0].kind))
  {
    var w := args[0];
    SpelledCall(w.kind, w.args, w.separators, w.closed, w.period);
    hide *;
    FirstWritten(dsn, at, args, separators);
    var rest := SpelledArgs(w.args, w.separators) + Closing(w.closed);
    AtBoth(dsn, at, Opening(w.kind) + rest, PeriodSpelled(w.period));
    AtBoth(dsn, at, Opening(w.kind), rest);
  }

  /** A "?" that no argument turns into a retry period. */
  lemma NoPeriodWritten(dsn: string, at: nat, args: seq<Written>, separators: string)
    requires at < |dsn| && ArgsWritten(dsn, at + 1, args, separators)
    requires !(dsn[at] == '?' && args[0].Word? && "retry_period=" <= args[0].dsn)
    ensures !At(dsn, at, PERIOD_KEY)
  {
    assert args != [];
    hide At, ArgsWritten, ArgsFit;
    if dsn[at] != '?' {
      NotAt(dsn, at, PERIOD_KEY, 0);
    } else if args[0].Call? {
      BehindFirstCall(dsn, at + 1, args, separators);
      var k := if args[0].kind.Failover? then 0 else 1;
      CharAt(dsn, at + 1, Opening(args[0].kind), k);
      NotAt(dsn, at, PERIOD_KEY, k + 1);
    } else {
      var b := args[0].dsn;
      BehindFirstWord(dsn, at + 1, args, separators);
      PeriodKeyIs();
      var k := if |b| < |PERIOD_WORD| then |b| else DifferAt(b, PERIOD_WORD);
      if |b| >= |PERIOD_WORD| {
        CharAt(dsn, at + 1, b, k);
      }
      NotAt(dsn, at, PERIOD_KEY, k + 1);
    }
  }

  lemma StopsBefore(dsn: string, end: nat, w: Written)
    requires end < |dsn| && Tidy(w)
    requires w.Word? ==> dsn[end] == ' ' || dsn[end] == ')'
    requires w.Call? ==> if w.period.None? then !At(dsn, end, PERIOD_KEY) else dsn[end] == '&'
    ensures Stops(dsn, end, w)
  {
    hide At;
  }

  lemma SeparatorIs(w: Written, c: char, next: Written)
    requires Separates(w, c, next)
    ensures w.Word? ==> c == ' '
    ensures w.Call? ==> if w.period.None? then !(c == '?' && next.Word? && "retry_period=" <= next.dsn) else c == '&'
  {
  }

  lemma NoQuestion(dsn: string, at: nat)
    requires at < |dsn| && dsn[at] != '?'
    ensures !At(dsn, at, PERIOD_KEY)
  {
    hide At;
    NotAt(dsn, at, PERIOD_KEY, 0);
  }

  lemma OnlyMayClose(args: seq<Written>)
    requires |args| == 1 && MayClose(args)
    ensures args[0].Call? ==> args[0].period.None?
  {
  }

  lemma FirstStops(dsn: string, at: nat, args: seq<Written>, separators: string)
    requires ArgsWritten(dsn, at, args, separators) && MayClose(args) && Tidy(args[0])
    ensures Stops(dsn, at + |Spelled(args[0])|, args[0])
  {
    hide *;
    FirstWritten(dsn, at, args, separators);
    var w, end := args[0], at + |Spelled(args[0])|;
    if |args| == 1 {
      OnlyMayClose(args);
      NoQuestion(dsn, end);
    } else {
      SeparatorIs(w, separators[0], args[1]);
      if w.Call? && w.period.None? {
        NoPeriodWritten(dsn, end, args[1..], separators[1..]);
      }
    }
    StopsBefore(dsn, end, w);
  }

  lemma {:induction false} WrittenIsRead(accepts: Accepts, dsn: string, at: nat, w: Written)
    requires !accepts("") && Loose(accepts, w) && Tidy(w) && At(dsn, at, Spelled(w)) && Stops(dsn, at + |Spelled(w)|, w)
    ensures Reads(accepts, dsn, at, w)
    decreases w, 1
  {
    hide *;
    if w.Word? {
      WordIsRead(accepts, dsn, at, w);
    } else {
      LooseArgs(accepts, w);
      ArgsStandThere(dsn, at, w);
      ArgsWrittenAreRead(accepts, dsn, at + |Name(w.kind)| + 1, w.args, w.separators);
      CallIsRead(accepts, dsn, at, w);
    }
  }

  lemma ArgsStandThere(dsn: string, at: nat, w: Written)
    requires w.Call? && Tidy(w) && ArgsFit(w.args, w.separators) && At(dsn, at, Spelled(w))
    ensures ArgsWritten(dsn, at + |Name(w.kind)| + 1, w.args, w.separators)
  {
    assert w.closed;
    SpelledCall(w.kind, w.args, w.separators, w.closed, w.period);
    OpeningIsName(w.kind);
    hide At, ArgsFit, Spelled, SpelledArgs, Opening, PeriodSpelled;
    var inner := SpelledArgs(w.args, w.separators) + ")";
    AtBoth(dsn, at, Opening(w.kind) + inner, PeriodSpelled(w.period));
    AtBoth(dsn, at, Opening(w.kind), inner);
  }

  lemma FirstIsTidy(accepts: Accepts, args: seq<Written>)
    requires args != [] && AllLoose(accepts, args) && AllTidy(args) && MayClose(args)
    ensures Loose(accepts, args[0]) && Tidy(args[0])
    ensures |args| > 1 ==> AllLoose(accepts, args[1..]) && AllTidy(args[1..]) && MayClose(args[1..])
  {
    hide Loose, Tidy;
  }

  lemma {:induction false} ArgsWrittenAreRead(accepts: Accepts, dsn: string, at: nat, args: seq<Written>, separators: string)
    requires !accepts("") && AllLoose(accepts, args) && AllTidy(args) && MayClose(args) && ArgsWritten(dsn, at, args, separators)
    ensures ReadsArgs(accepts, dsn, at, args, separators, true)
    decreases args, 0
  {
    hide *;
    FirstWritten(dsn, at, args, separators);
    FirstIsTidy(accepts, args);
    FirstStops(dsn, at, args, separators);
    WrittenIsRead(accepts, dsn, at, args[0]);
    if |args| == 1 {
      assert [args[0]] == args && separators == "";
      LastArgIsSound(accepts, dsn, at, args[0], true);
    } else {
      var end := at + |Spelled(args[0])|;
      NoClosing(args[0], separators[0], args[1]);
      ArgsWrittenAreRead(accepts, dsn, end + 1, args[1..], separators[1..]);
      var all, between := MoreArgsAreSound(accepts, dsn, at, args[0], args[1..], separators[1..], true);
      assert [args[0]] + args[1..] == args && [separators[0]] + separators[1..] == separators;
    }
  }

  lemma NoClosing(arg: Written, c: char, next: Written)
    requires Separates(arg, c, next)
    ensures c != ')'
  {
  }

  // ----- exactly the texts of the grammar -----

  lemma TopWordIsRead(accepts: Accepts, dsn: string, w: Written, rest: string)
    requires !accepts("") && w.Word? && Proper(accepts, w) && dsn == w.dsn + rest && (rest == "" || rest[0] == ' ')
    ensures Parse(accepts, dsn, 0) == Ok(Single(w.dsn), |w.dsn|)
  {
    assert forall k :: 0 <= k < |w.dsn| ==> dsn[k] == w.dsn[k] && w.dsn[k] in w.dsn;
    assert dsn[0..|w.dsn|] == w.dsn;
    NoKeywordThere(dsn, w.dsn);
    LeafEndsThere(dsn, 0, |w.dsn|);
    hide LeafEnd, Calls, Keyword, LooksLikeKeyword;
  }

  lemma NoKeywordThere(dsn: string, leaf: string)
    requires leaf <= dsn && !Calls(leaf) && Ends(dsn, |leaf|)
    ensures Keyword(dsn, 0).None? && !LooksLikeKeyword(dsn, 0)
  {
    LooksIsCalls(dsn);
    KeywordCalls(dsn);
    hide Keyword, LooksLikeKeyword;
    if Calls(dsn) {
      CallsWithin(dsn, leaf);
    }
  }

  lemma CallsWithin(dsn: string, leaf: string)
    requires leaf <= dsn && Ends(dsn, |leaf|) && Calls(dsn)
    ensures Calls(leaf)
  {
    var k :| 0 < k < |dsn| && dsn[k] == '(' && forall j :: 0 <= j < k ==> IsWordChar(dsn[j]);
    assert |leaf| < |dsn| ==> !IsWordChar(dsn[|leaf|]) && dsn[|leaf|] != '(';
    assert k < |leaf|;
    assert leaf[k] == '(' && forall j :: 0 <= j < k ==> leaf[j] == dsn[j];
  }

  lemma KeywordCalls(dsn: string)
    ensures Keyword(dsn, 0).Some? ==> Calls(dsn)
  {
    if Keyword(dsn, 0).Some? {
      var call := Name(Keyword(dsn, 0).value) + "(";
      assert dsn[0..|call|] == call;
      assert dsn[|call| - 1] == '(' && forall j :: 0 <= j < |call| - 1 ==> dsn[j] == call[j];
    }
  }

  lemma ProperMeans(accepts: Accepts, w: Written)
    requires Proper(accepts, w)
    ensures Loose(accepts, w) && (w.Call? ==> Tidy(w))
  {
  }

  /** A composite with anything behind it that is not taken for its retry period. */
  lemma TopCallIsRead(accepts: Accepts, w: Written, rest: string)
    requires !accepts("") && w.Call? && Proper(accepts, w) && Stops(Spelled(w) + rest, |Spelled(w)|, w)
    ensures Parse(accepts, Spelled(w) + rest, 0) == Ok(Sense(w), |Spelled(w)|)
  {
    hide *;
    ProperMeans(accepts, w);
    var dsn := Spelled(w) + rest;
    assert dsn[0..|Spelled(w)|] == Spelled(w);
    AtHere(dsn, 0, Spelled(w));
    WrittenIsRead(accepts, dsn, 0, w);
    ReadsHere(accepts, dsn, 0, w);
  }

  lemma StopsAtEnd(w: Written)
    requires w.Call? && Tidy(w)
    ensures Stops(Spelled(w) + "", |Spelled(w)|, w)
  {
    hide Spelled;
  }

  /** Every text of the grammar is accepted, and stands for what the grammar says. */
  lemma WrittenIsAccepted(accepts: Accepts, w: Written)
    requires !accepts("") && Proper(accepts, w)
    ensures Resolve(accepts, Spelled(w)) == Ok(Sense(w), |Spelled(w)|)
  {
    hide Parse, Loose, Spelled, Tidy, Calls, Stops;
    assert Spelled(w) + "" == Spelled(w);
    if w.Word? {
      SpelledWord(w);
      TopWordIsRead(accepts, Spelled(w), w, "");
    } else {
      StopsAtEnd(w);
      TopCallIsRead(accepts, w, "");
    }
  }

  /** `dsn` is a text of the grammar for `t`. */
  ghost predicate Denotes(accepts: Accepts, dsn: string, t: Resolved) {
    exists w :: Proper(accepts, w) && Spelled(w) == dsn && Sense(w) == t
  }

  /** FromString answers with `t` exactly for the texts of the grammar that stand for `t`, and consumes them whole; it refuses every other text. */
  lemma AcceptsExactlyTheGrammar(accepts: Accepts, dsn: string, t: Resolved)
    requires !accepts("")
    ensures Resolve(accepts, dsn) == Ok(t, |dsn|) <==> Denotes(accepts, dsn, t)
    ensures Resolve(accepts, dsn).Ok? ==> Resolve(accepts, dsn).next == |dsn|
  {
    hide Resolve, Proper, Spelled, Sense;
    if Resolve(accepts, dsn).Ok? {
      var w := AcceptedIsWritten(accepts, dsn);
    }
    if Denotes(accepts, dsn, t) {
      var w :| Proper(accepts, w) && Spelled(w) == dsn && Sense(w) == t;
      WrittenIsAccepted(accepts, w);
    }
  }

  lemma NotTakenFor(w: Written, rest: string)
    requires w.Call? && w.period.None? && Tidy(w)
    ensures Stops(Spelled(w) + " " + rest, |Spelled(w)|, w)
  {
    hide Spelled;
    var dsn := Spelled(w) + " " + rest;
    NotAt(dsn, |Spelled(w)|, PERIOD_KEY, 0);
  }

  lemma PeriodIsSpoilt(dsn: string, at: nat, digits: string)
    requires At(dsn, at, PERIOD_KEY + digits) && Decimals.AllDigits(digits)
    requires var end := at + |PERIOD_KEY + digits|; end < |dsn| && dsn[end] == ' '
    ensures Period(dsn, at).Wrong?
  {
    hide Decimals.Value, Wrap;
    AtBoth(dsn, at, PERIOD_KEY, digits);
    var start: nat := at + |PERIOD_KEY|;
    var end := start + |digits|;
    assert dsn[start..] == digits + dsn[end..];
    DigitsHaveNoAmpersand(digits);
    CutBehind(digits, dsn[end..]);
    hide At;
    var val := digits + BeforeAmpersand(dsn[end..]);
    assert val[|digits|] == ' ';
    assert !Decimals.IsDigit(val[|digits|]);
  }

  /** A composite with its retry period and a space behind it. */
  lemma SpoiltCall(accepts: Accepts, w: Written, dsn: string)
    requires !accepts("") && w.Call? && w.period.Some? && Loose(accepts, w) && Tidy(w)
    requires At(dsn, 0, Spelled(w)) && |Spelled(w)| < |dsn| && dsn[|Spelled(w)|] == ' '
    ensures Parse(accepts, dsn, 0).Wrong?
  {
    hide *;
    LooseArgs(accepts, w);
    ArgsStandThere(dsn, 0, w);
    ArgsWrittenAreRead(accepts, dsn, |Name(w.kind)| + 1, w.args, w.separators);
    ArgsDepth(accepts, w.args, w.separators);
    ArgsParse(accepts, dsn, |Name(w.kind)| + 1, w.args, w.separators);
    var end := CallBehind(accepts, dsn, 0, w, SpelledArgs(w.args, w.separators));
    PeriodKeyIsLiteral(dsn, end, w.period.value);
    PeriodIsSpoilt(dsn, end, w.period.value);
    FinishedPeriod(w.kind, Senses(w.args), Period(dsn, end));
  }

  lemma ParsedShort(accepts: Accepts, dsn: string)
    requires !accepts("") && (Parse(accepts, dsn, 0).Ok? ==> Parse(accepts, dsn, 0).next < |dsn|)
    ensures Resolve(accepts, dsn).Wrong?
  {
    hide Parse;
  }

  lemma SpaceBehind(text: string, rest: string)
    ensures var dsn := text + " " + rest;
      text + (" " + rest) == dsn && At(dsn, 0, text) && |text| < |dsn| && dsn[|text|] == ' '
  {
    var dsn := text + " " + rest;
    assert dsn[0..|text|] == text;
  }

  /** Nothing may follow an accepted text: with a space and anything behind it, it is refused. */
  lemma NothingMayFollow(accepts: Accepts, dsn: string, rest: string)
    requires !accepts("") && Resolve(accepts, dsn).Ok?
    ensures Resolve(accepts, dsn + " " + rest).Wrong?
  {
    hide *;
    var w := AcceptedIsWritten(accepts, dsn);
    ProperMeans(accepts, w);
    SpaceBehind(dsn, rest);
    if w.Word? {
      SpelledWord(w);
      TopWordIsRead(accepts, dsn + " " + rest, w, " " + rest);
    } else if w.period.None? {
      NotTakenFor(w, rest);
      TopCallIsRead(accepts, w, " " + rest);
    } else {
      SpoiltCall(accepts, w, dsn + " " + rest);
    }
    ParsedShort(accepts, dsn + " " + rest);
  }
}
