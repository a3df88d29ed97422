/**
 Composite DSNs of transport/registry.go: the recursive-descent parser over offsets and its loops.
 What ParseDSN and the factories make of a single DSN is the parameter `accepts`.
 */
module CompositeDsn {
  import opened Octets
  import Decimals

  datatype Kind = Failover | RoundRobin

  /** A resolved transport; retry periods are in nanoseconds, as time.Duration counts them. */
  datatype Resolved = Single(dsn: string) | Composite(kind: Kind, transports: seq<Resolved>, retryPeriod: int)

  datatype Error = Unbalanced | NotAPeriod | UnknownKeyword | Refused | Garbage

  datatype Parsed<+T> = Ok(value: T, next: nat) | Wrong(error: Error)

  type Accepts = string -> bool

  // ----- what the scanners look for -----

  function Name(kind: Kind): string {
    match kind
    case Failover => "failover"
    case RoundRobin => "roundrobin"
  }

  /** `text` stands in `dsn` at `at`. */
  predicate At(dsn: string, at: nat, text: string) {
    at + |text| <= |dsn| && dsn[at..at + |text|] == text
  }

  function Keyword(dsn: string, at: nat): Option<Kind> {
    if At(dsn, at, Name(Failover) + "(") then Some(Failover)
    else if At(dsn, at, Name(RoundRobin) + "(") then Some(RoundRobin)
    else None
  }

  /** How many more parentheses open than close. */
  function Depth(s: string): int {
    if s == "" then 0
    else Depth(s[..|s| - 1]) + (if s[|s| - 1] == '(' then 1 else if s[|s| - 1] == ')' then -1 else 0)
  }

  /** Some parenthesis closes the one at `open`. */
  ghost predicate Balanced(dsn: string, open: nat) {
    open < |dsn| && dsn[open] == '(' && exists end :: open < end <= |dsn| && Depth(dsn[open..end]) == 0
  }

  predicate IsWordChar(c: char) {
    c == '_' || 'a' <= c <= 'z' || 'A' <= c <= 'Z' || '0' <= c <= '9'
  }

  function WordEnd(dsn: string, at: nat): (end: nat)
    requires at <= |dsn|
    ensures at <= end <= |dsn|
    decreases |dsn| - at
  {
    if at < |dsn| && IsWordChar(dsn[at]) then WordEnd(dsn, at + 1) else at
  }

  /** A word with an opening parenthesis right behind it. */
  predicate LooksLikeKeyword(dsn: string, at: nat)
    requires at <= |dsn|
  {
    var end := WordEnd(dsn, at);
    end > at && end < |dsn| && dsn[end] == '('
  }

  /** The first space or closing parenthesis from `at` on, or the end. */
  function LeafEnd(dsn: string, at: nat): (end: nat)
    requires at <= |dsn|
    ensures at <= end <= |dsn|
    decreases |dsn| - at
  {
    if at == |dsn| || dsn[at] == ' ' || dsn[at] == ')' then at else LeafEnd(dsn, at + 1)
  }

  // ----- retry periods -----

  const PERIOD_KEY := "?retry_period="
  const SECOND := 1_000_000_000
  const DEFAULT_PERIOD := 60 * SECOND
  const TWO_63 := 0x8000_0000_0000_0000
  const TWO_64 := 0x1_0000_0000_0000_0000

  /** Signed 64-bit arithmetic. */
  function Wrap(x: int): (r: int)
    ensures -TWO_63 <= r < TWO_63
  {
    (x + TWO_63) % TWO_64 - TWO_63
  }

  function BeforeAmpersand(s: string): (r: string)
    ensures r <= s
  {
    if s == "" || s[0] == '&' then "" else [s[0]] + BeforeAmpersand(s[1..])
  }

  /** The retry period in seconds behind a composite, 0 if there is none, and where the text goes on. */
  function Period(dsn: string, at: nat): (r: Parsed<int>)
    requires at <= |dsn|
    ensures r.Ok? ==> at <= r.next <= |dsn|
  {
    if !At(dsn, at, PERIOD_KEY) then Ok(0, at)
    else
      var start := at + |PERIOD_KEY|;
      var digits := BeforeAmpersand(dsn[start..]);
      if digits == "" || !Decimals.AllDigits(digits) then Wrong(NotAPeriod)
      else Ok(Wrap(Decimals.Value(digits)), start + |digits|)
  }

  /** time.Duration(seconds) * time.Second, where nothing positive selects the default. */
  function RetryPeriod(seconds: int): int {
    var period := Wrap(seconds * SECOND);
    if period <= 0 then DEFAULT_PERIOD else period
  }

  // ----- the parser -----

  ghost function Parse(accepts: Accepts, dsn: string, at: nat): (r: Parsed<Resolved>)
    requires at <= |dsn| && !accepts("")
    ensures r.Ok? ==> at < r.next <= |dsn|
    decreases |dsn| - at, 0
  {
    var keyword := Keyword(dsn, at);
    if keyword.Some? then
      var open := at + |Name(keyword.value)|;
      if !Balanced(dsn, open) then Wrong(Unbalanced)
      else
        var args := ParseArgs(accepts, dsn, open + 1);
        if args.Wrong? then Wrong(args.error)
        else
          var period := Period(dsn, args.next);
          if period.Wrong? then Wrong(period.error)
          else Ok(Composite(keyword.value, args.value, RetryPeriod(period.value)), period.next)
    else if LooksLikeKeyword(dsn, at) then Wrong(UnknownKeyword)
    else
      var end := LeafEnd(dsn, at);
      assert dsn[at..at] == "";
      if accepts(dsn[at..end]) then Ok(Single(dsn[at..end]), end) else Wrong(Refused)
  }

  /** One argument after the other; whatever stands between two of them is skipped. */
  ghost function ParseArgs(accepts: Accepts, dsn: string, at: nat): (r: Parsed<seq<Resolved>>)
    requires at <= |dsn| && !accepts("")
    ensures r.Ok? ==> r.value != [] && at < r.next <= |dsn|
    decreases |dsn| - at, 1
  {
    var arg := Parse(accepts, dsn, at);
    if arg.Wrong? then Wrong(arg.error)
    else if arg.next == |dsn| then Ok([arg.value], arg.next)
    else if dsn[arg.next] == ')' then Ok([arg.value], arg.next + 1)
    else
      var more := ParseArgs(accepts, dsn, arg.next + 1);
      if more.Wrong? then more else Ok([arg.value] + more.value, more.next)
  }

  ghost function Resolve(accepts: Accepts, dsn: string): Parsed<Resolved>
    requires !accepts("")
  {
    var r := Parse(accepts, dsn, 0);
    if r.Ok? && r.next != |dsn| then Wrong(Garbage) else r
  }

  // ----- the code -----

  method MatchBalancedParen(dsn: string, open: nat) returns (end: int)
    ensures end >= 0 <==> Balanced(dsn, open)
    ensures end >= 0 ==> open < end < |dsn| && dsn[end] == ')' && Depth(dsn[open..end + 1]) == 0
    ensures end >= 0 ==> forall k :: open < k <= end ==> Depth(dsn[open..k]) > 0
  {
    if open >= |dsn| || dsn[open] != '(' {
      return -1;
    }
    var depth, i := 0, open;
    hide Depth;
    DepthOfNothing();
    assert dsn[open..open] == "";
    while i < |dsn|
      invariant open <= i <= |dsn| && depth == Depth(dsn[open..i])
      invariant i > open ==> depth > 0
      invariant forall k :: open < k <= i ==> Depth(dsn[open..k]) > 0
    {
      DepthStep(dsn, open, i);
      if dsn[i] == '(' {
        depth := depth + 1;
      } else if dsn[i] == ')' {
        depth := depth - 1;
        if depth == 0 {
          return i;
        }
      }
      i := i + 1;
    }
    return -1;
  }

  lemma DepthOfNothing()
    ensures Depth("") == 0
  {
  }

  lemma DepthStep(dsn: string, open: nat, i: nat)
    requires open <= i < |dsn|
    ensures Depth(dsn[open..i + 1]) == Depth(dsn[open..i]) + (if dsn[i] == '(' then 1 else if dsn[i] == ')' then -1 else 0)
  {
    var s := dsn[open..i + 1];
    assert s[..|s| - 1] == dsn[open..i] && s[|s| - 1] == dsn[i];
  }

  /** strings.IndexByte(val, '&') and the slice before it. */
  method CutAtAmpersand(s: string) returns (cut: string)
    ensures cut == BeforeAmpersand(s)
  {
    var i := 0;
    assert s[0..] == s;
    while i < |s| && s[i] != '&'
      invariant 0 <= i <= |s|
      invariant BeforeAmpersand(s) == s[..i] + BeforeAmpersand(s[i..])
    {
      CutStep(s, i);
      i := i + 1;
    }
    cut := s[..i];
  }

  lemma CutStep(s: string, i: nat)
    requires i < |s| && s[i] != '&'
    ensures s[..i] + BeforeAmpersand(s[i..]) == s[..i + 1] + BeforeAmpersand(s[i + 1..])
  {
    assert s[i..][1..] == s[i + 1..];
    assert s[..i] + [s[i]] == s[..i + 1];
  }

  method ParseRetryPeriod(dsn: string, at: nat) returns (r: Parsed<int>)
    requires at <= |dsn|
    ensures r == Period(dsn, at)
  {
    if !At(dsn, at, PERIOD_KEY) {
      return Ok(0, at);
    }
    var val := CutAtAmpersand(dsn[at + |PERIOD_KEY|..]);
    if val == "" {
      return Wrong(NotAPeriod);
    }
    var period, i := 0, 0;
    hide At, BeforeAmpersand, Decimals.Value, Wrap;
    NoDigits();
    while i < |val|
      invariant 0 <= i <= |val| && Decimals.AllDigits(val[..i])
      invariant period == Wrap(Decimals.Value(val[..i]))
    {
      if !Decimals.IsDigit(val[i]) {
        return Wrong(NotAPeriod);
      }
      DigitStep(val, i, period);
      period := Wrap(period * 10 + (val[i] as int - '0' as int));
      i := i + 1;
    }
    assert val[..i] == val;
    r := Ok(period, at + |PERIOD_KEY| + |val|);
  }

  lemma NoDigits()
    ensures Wrap(Decimals.Value("")) == 0
    ensures forall s: string :: s[..0] == ""
  {
  }

  lemma DigitStep(val: string, i: nat, period: int)
    requires i < |val| && Decimals.AllDigits(val[..i]) && Decimals.IsDigit(val[i]) && period == Wrap(Decimals.Value(val[..i]))
    ensures Decimals.AllDigits(val[..i + 1])
    ensures Wrap(period * 10 + (val[i] as int - '0' as int)) == Wrap(Decimals.Value(val[..i + 1]))
  {
    var s := val[..i + 1];
    assert s[..|s| - 1] == val[..i] && s[|s| - 1] == val[i];
    WrapEarly(Decimals.Value(val[..i]), val[i] as int - '0' as int);
  }

  /** Wrapping after every digit is wrapping once at the end. */
  lemma WrapEarly(x: int, d: int)
    ensures Wrap(Wrap(x) * 10 + d) == Wrap(x * 10 + d)
  {
    var k := (x + TWO_63) / TWO_64;
    assert Wrap(x) == x - k * TWO_64;
    WrapShift(x * 10 + d, -10 * k);
  }

  lemma WrapShift(x: int, k: int)
    ensures Wrap(x + k * TWO_64) == Wrap(x)
  {
    var q, r := (x + TWO_63) / TWO_64, (x + TWO_63) % TWO_64;
    assert x + k * TWO_64 + TWO_63 == (q + k) * TWO_64 + r;
  }

  method LeadingKeyword(dsn: string, at: nat) returns (found: bool, name: string)
    requires at <= |dsn|
    ensures found == LooksLikeKeyword(dsn, at)
    ensures found ==> name != "" && At(dsn, at, name + "(") && forall c :: c in name ==> IsWordChar(c)
  {
    var i := at;
    while i < |dsn| && IsWordChar(dsn[i])
      invariant at <= i <= |dsn| && WordEnd(dsn, i) == WordEnd(dsn, at)
      invariant forall k :: at <= k < i ==> IsWordChar(dsn[k])
    {
      i := i + 1;
    }
    found := i > at && i < |dsn| && dsn[i] == '(';
    name := if found then dsn[at..i] else "";
  }

  method IndexOfEnd(dsn: string, at: nat) returns (end: nat)
    requires at <= |dsn|
    ensures end == LeafEnd(dsn, at)
  {
    end := at;
    while end < |dsn| && dsn[end] != ' ' && dsn[end] != ')'
      invariant at <= end <= |dsn| && LeafEnd(dsn, end) == LeafEnd(dsn, at)
    {
      end := end + 1;
    }
  }

  /** parseDSN terminates on every text and consumes something, never more than there is. */
  method ParseDsn(accepts: Accepts, dsn: string, offset: nat) returns (r: Parsed<Resolved>)
    requires offset <= |dsn| && !accepts("")
    ensures r == Parse(accepts, dsn, offset)
    ensures r.Ok? ==> offset < r.next <= |dsn|
    decreases |dsn| - offset, 0
  {
    hide At, LooksLikeKeyword, LeafEnd, Balanced, Period, ParseArgs, RetryPeriod;
    var keyword := Keyword(dsn, offset);
    if keyword.Some? {
      KeywordLength(dsn, offset);
      hide Keyword;
      var open := offset + |Name(keyword.value)|;
      var end := MatchBalancedParen(dsn, open);
      if end < 0 {
        return Wrong(Unbalanced);
      }
      var args := ParseArguments(accepts, dsn, open + 1);
      if args.Wrong? {
        return Wrong(args.error);
      }
      var period := ParseRetryPeriod(dsn, args.next);
      if period.Wrong? {
        return Wrong(period.error);
      }
      return Ok(Composite(keyword.value, args.value, RetryPeriod(period.value)), period.next);
    }
    var found, name := LeadingKeyword(dsn, offset);
    if found {
      return Wrong(UnknownKeyword);
    }
    var end := IndexOfEnd(dsn, offset);
    r := if accepts(dsn[offset..end]) then Ok(Single(dsn[offset..end]), end) else Wrong(Refused);
  }

  lemma KeywordLength(dsn: string, at: nat)
    requires Keyword(dsn, at).Some?
    ensures at + |Name(Keyword(dsn, at).value)| < |dsn|
  {
  }

  /** The loop over the arguments of a composite, behind its opening parenthesis. */
  method ParseArguments(accepts: Accepts, dsn: string, start: nat) returns (r: Parsed<seq<Resolved>>)
    requires start <= |dsn| && !accepts("")
    ensures r == ParseArgs(accepts, dsn, start)
    decreases |dsn| - start, 1
  {
    var offset, args: seq<Resolved> := start, [];
    hide Parse;
    BehindNothing(ParseArgs(accepts, dsn, start));
    while true
      invariant start <= offset <= |dsn|
      invariant ParseArgs(accepts, dsn, start) == Behind(args, ParseArgs(accepts, dsn, offset))
      decreases |dsn| - offset
    {
      var arg := ParseDsn(accepts, dsn, offset);
      if arg.Wrong? {
        return Wrong(arg.error);
      }
      BehindOne(args, arg.value, accepts, dsn, offset);
      args := args + [arg.value];
      offset := arg.next;
      if offset == |dsn| {
        return Ok(args, offset);
      }
      offset := offset + 1;
      if dsn[offset - 1] == ')' {
        return Ok(args, offset);
      }
    }
  }

  function Behind(args: seq<Resolved>, r: Parsed<seq<Resolved>>): Parsed<seq<Resolved>> {
    if r.Wrong? then r else Ok(args + r.value, r.next)
  }

  lemma BehindNothing(r: Parsed<seq<Resolved>>)
    ensures Behind([], r) == r
  {
    if r.Ok? {
      assert [] + r.value == r.value;
    }
  }

  lemma BehindOne(args: seq<Resolved>, arg: Resolved, accepts: Accepts, dsn: string, at: nat)
    requires at <= |dsn| && !accepts("")
    requires Parse(accepts, dsn, at).Ok? && Parse(accepts, dsn, at).value == arg
    ensures var next := Parse(accepts, dsn, at).next;
      Behind(args, ParseArgs(accepts, dsn, at)) ==
        if next == |dsn| then Ok(args + [arg], next)
        else if dsn[next] == ')' then Ok(args + [arg], next + 1)
        else Behind(args + [arg], ParseArgs(accepts, dsn, next + 1))
  {
    hide Parse;
    var next := Parse(accepts, dsn, at).next;
    if next < |dsn| && dsn[next] != ')' {
      var more := ParseArgs(accepts, dsn, next + 1);
      if more.Ok? {
        assert args + ([arg] + more.value) == args + [arg] + more.value;
      }
    }
  }

  method FromString(accepts: Accepts, dsn: string) returns (r: Parsed<Resolved>)
    requires !accepts("")
    ensures r == Resolve(accepts, dsn)
  {
    r := ParseDsn(accepts, dsn, 0);
    if r.Ok? && r.next != |dsn| {
      r := Wrong(Garbage);
    }
  }
}
