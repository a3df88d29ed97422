/** Printing composite transports and reading them back. */
module CompositeDsnReading {
  import opened Octets
  import opened CompositeDsn
  import Decimals

  /** A composite as one writes it, with or without a retry period behind each group. */
  datatype Syntax = Leaf(dsn: string) | Group(kind: Kind, args: seq<Syntax>, period: Option<nat>)

  function PeriodText(period: Option<nat>): string {
    if period.None? then "" else PERIOD_KEY + Decimals.Print(period.value)
  }

  function Text(s: Syntax): string
    decreases s, 1
  {
    match s
    case Leaf(dsn) => dsn
    case Group(kind, args, period) => Name(kind) + "(" + Join(args) + ")" + PeriodText(period)
  }

  function Join(args: seq<Syntax>): string
    decreases args, 0
  {
    if args == [] then "" else if |args| == 1 then Text(args[0]) else Text(args[0]) + " " + Join(args[1..])
  }

  /** The transport it stands for. */
  function Meaning(s: Syntax): Resolved
    decreases s, 1
  {
    match s
    case Leaf(dsn) => Single(dsn)
    case Group(kind, args, period) => Composite(kind, Meanings(args), RetryPeriod(if period.None? then 0 else Wrap(period.value)))
  }

  function Meanings(args: seq<Syntax>): seq<Resolved>
    decreases args, 0
  {
    if args == [] then [] else [Meaning(args[0])] + Meanings(args[1..])
  }

  predicate CleanLeaf(dsn: string) {
    forall c :: c in dsn ==> c != ' ' && c != '(' && c != ')'
  }

  /** Accepted leaves without spaces and parentheses, and no empty group. */
  predicate Clean(accepts: Accepts, s: Syntax)
    decreases s, 1
  {
    match s
    case Leaf(dsn) => accepts(dsn) && CleanLeaf(dsn)
    case Group(_, args, _) => args != [] && AllClean(accepts, args)
  }

  predicate AllClean(accepts: Accepts, args: seq<Syntax>)
    decreases args, 0
  {
    args == [] || (Clean(accepts, args[0]) && AllClean(accepts, args[1..]))
  }

  /** No retry period anywhere. */
  predicate Plain(s: Syntax)
    decreases s, 1
  {
    s.Leaf? || (s.period.None? && AllPlain(s.args))
  }

  predicate AllPlain(args: seq<Syntax>)
    decreases args, 0
  {
    args == [] || (Plain(args[0]) && AllPlain(args[1..]))
  }

  /** A retry period at most behind the outermost group. */
  predicate PeriodOnlyOutside(s: Syntax) {
    s.Leaf? || AllPlain(s.args)
  }

  // ----- positions -----

  lemma AtBoth(dsn: string, at: nat, a: string, b: string)
    ensures At(dsn, at, a + b) <==> At(dsn, at, a) && At(dsn, at + |a|, b)
  {
    if At(dsn, at, a + b) {
      assert (a + b)[..|a|] == a && (a + b)[|a|..] == b;
      assert dsn[at..at + |a + b|][..|a|] == dsn[at..at + |a|];
      assert dsn[at..at + |a + b|][|a|..] == dsn[at + |a|..at + |a| + |b|];
    }
  }

  lemma CharAt(dsn: string, at: nat, text: string, k: nat)
    requires At(dsn, at, text) && k < |text|
    ensures at + k < |dsn| && dsn[at + k] == text[k]
  {
    assert dsn[at..at + |text|][k] == dsn[at + k];
  }

  /** The text of an argument ends here. */
  predicate Ends(dsn: string, end: nat) {
    end <= |dsn| && (end == |dsn| || dsn[end] == ' ' || dsn[end] == ')')
  }

  // ----- leaves -----

  lemma NoOpeningIn(dsn: string, at: nat, leaf: string, word: string)
    requires At(dsn, at, leaf) && CleanLeaf(leaf) && Ends(dsn, at + |leaf|)
    requires forall c :: c in word ==> c != ' ' && c != ')'
    ensures !At(dsn, at, word + "(")
  {
    var call := word + "(";
    if at + |call| <= |dsn| {
      var k := if |word| < |leaf| then |word| else |leaf|;
      assert dsn[at..at + |call|][k] == dsn[at + k];
      if |word| < |leaf| {
        CharAt(dsn, at, leaf, k);
        assert leaf[k] in leaf && call[k] == '(';
      } else if k < |word| {
        assert call[k] == word[k] && word[k] in word;
      }
    }
  }

  lemma NameIsAWord(kind: Kind)
    ensures forall c :: c in Name(kind) ==> c != ' ' && c != '(' && c != ')'
  {
  }

  lemma {:induction false} WordStops(dsn: string, at: nat, k: nat)
    requires at <= k < |dsn| && !IsWordChar(dsn[k])
    ensures WordEnd(dsn, at) <= k
    decreases k - at
  {
    if at < k && IsWordChar(dsn[at]) {
      WordStops(dsn, at + 1, k);
    }
  }

  lemma LeafIsNoKeyword(dsn: string, at: nat, leaf: string)
    requires At(dsn, at, leaf) && CleanLeaf(leaf) && Ends(dsn, at + |leaf|)
    ensures Keyword(dsn, at).None? && !LooksLikeKeyword(dsn, at)
  {
    NameIsAWord(Failover);
    NameIsAWord(RoundRobin);
    NoOpeningIn(dsn, at, leaf, Name(Failover));
    NoOpeningIn(dsn, at, leaf, Name(RoundRobin));
    hide WordEnd;
    var end := at + |leaf|;
    var word := WordEnd(dsn, at);
    if end < |dsn| {
      WordStops(dsn, at, end);
    }
    if word < end {
      CharAt(dsn, at, leaf, word - at);
      assert leaf[word - at] in leaf;
    }
  }

  lemma {:induction false} LeafEndsThere(dsn: string, at: nat, end: nat)
    requires at <= end && Ends(dsn, end) && (forall k :: at <= k < end ==> dsn[k] != ' ' && dsn[k] != ')')
    ensures LeafEnd(dsn, at) == end
    decreases end - at
  {
    if at < end {
      LeafEndsThere(dsn, at + 1, end);
    }
  }

  lemma ParseLeaf(accepts: Accepts, dsn: string, at: nat, leaf: string)
    requires !accepts("") && accepts(leaf) && CleanLeaf(leaf)
    requires At(dsn, at, leaf) && Ends(dsn, at + |leaf|)
    ensures Parse(accepts, dsn, at) == Ok(Single(leaf), at + |leaf|)
  {
    LeafIsNoKeyword(dsn, at, leaf);
    forall k | at <= k < at + |leaf| ensures dsn[k] != ' ' && dsn[k] != ')' {
      CharAt(dsn, at, leaf, k - at);
      assert leaf[k - at] in leaf;
    }
    LeafEndsThere(dsn, at, at + |leaf|);
    hide Keyword, LooksLikeKeyword, LeafEnd, CleanLeaf;
  }

  // ----- balanced parentheses -----

  lemma {:induction false} DepthConcat(a: string, b: string)
    ensures Depth(a + b) == Depth(a) + Depth(b)
    decreases |b|
  {
    if b == "" {
      assert a + b == a;
    } else {
      var s := a + b;
      assert s[..|s| - 1] == a + b[..|b| - 1];
      DepthConcat(a, b[..|b| - 1]);
    }
  }

  lemma {:induction false} DepthOfWord(s: string)
    requires forall c :: c in s ==> c != '(' && c != ')'
    ensures Depth(s) == 0
    decreases |s|
  {
    if s != "" {
      var shorter := s[..|s| - 1];
      assert s[|s| - 1] in s;
      forall c | c in shorter ensures c in s {
        var i :| 0 <= i < |shorter| && shorter[i] == c;
        assert s[i] == c;
      }
      DepthOfWord(shorter);
    }
  }

  lemma PeriodTextIsClean(period: Option<nat>)
    ensures forall c :: c in PeriodText(period) ==> c != '(' && c != ')'
  {
    if period.Some? {
      Decimals.ValueOfPrint(period.value);
      var digits := Decimals.Print(period.value);
      forall c | c in PeriodText(period) ensures c != '(' && c != ')' {
        if c in digits {
          var i :| 0 <= i < |digits| && digits[i] == c;
          assert Decimals.IsDigit(digits[i]);
        } else {
          assert c in PERIOD_KEY;
        }
      }
    }
  }

  lemma DepthOfParens()
    ensures Depth("(") == 1 && Depth(")") == -1 && Depth(" ") == 0
  {
    assert "("[..0] == "" && ")"[..0] == "" && " "[..0] == "";
  }

  lemma DepthOfGroup(name: string, inner: string, suffix: string)
    requires Depth(name) == 0 && Depth(inner) == 0 && Depth(suffix) == 0
    ensures Depth("(" + inner + ")") == 0 && Depth(name + "(" + inner + ")" + suffix) == 0
  {
    hide Depth;
    DepthOfParens();
    DepthConcat("(", inner);
    DepthConcat("(" + inner, ")");
    DepthConcat(name, "(" + inner + ")");
    DepthConcat(name + ("(" + inner + ")"), suffix);
    assert name + ("(" + inner + ")") + suffix == name + "(" + inner + ")" + suffix;
  }

  lemma {:induction false} DepthOfText(accepts: Accepts, s: Syntax)
    requires Clean(accepts, s)
    ensures Depth(Text(s)) == 0
    decreases s, 1
  {
    match s
    case Leaf(dsn) => DepthOfWord(dsn);
    case Group(kind, args, period) =>
      hide Depth, AllClean;
      NameIsAWord(kind);
      DepthOfWord(Name(kind));
      PeriodTextIsClean(period);
      DepthOfWord(PeriodText(period));
      DepthOfJoin(accepts, args);
      DepthOfGroup(Name(kind), Join(args), PeriodText(period));
  }

  lemma {:induction false} DepthOfJoin(accepts: Accepts, args: seq<Syntax>)
    requires AllClean(accepts, args)
    ensures Depth(Join(args)) == 0
    decreases args, 0
  {
    hide Clean, Text;
    if args != [] {
      DepthOfText(accepts, args[0]);
      if |args| > 1 {
        DepthOfJoin(accepts, args[1..]);
        hide Depth;
        DepthOfParens();
        DepthConcat(Text(args[0]), " ");
        DepthConcat(Text(args[0]) + " ", Join(args[1..]));
      }
    } else {
      DepthOfWord("");
    }
  }

  lemma ClosedAt(dsn: string, open: nat, inner: string)
    requires At(dsn, open, "(" + inner + ")") && Depth("(" + inner + ")") == 0
    ensures Balanced(dsn, open)
  {
    hide Depth;
    var end := open + |inner| + 2;
    CharAt(dsn, open, "(" + inner + ")", 0);
    assert dsn[open..end] == "(" + inner + ")";
    assert open < end <= |dsn| && Depth(dsn[open..end]) == 0;
  }

  // ----- retry periods -----

  lemma NoPeriodHere(dsn: string, at: nat)
    requires Ends(dsn, at)
    ensures Period(dsn, at) == Ok(0, at)
  {
    if at + |PERIOD_KEY| <= |dsn| {
      assert dsn[at..at + |PERIOD_KEY|][0] == dsn[at];
    }
  }

  lemma {:induction false} CutBehind(a: string, rest: string)
    requires '&' !in a
    ensures BeforeAmpersand(a + rest) == a + BeforeAmpersand(rest)
    decreases |a|
  {
    if a == "" {
      assert a + rest == rest && "" + BeforeAmpersand(rest) == BeforeAmpersand(rest);
    } else {
      assert a == [a[0]] + a[1..];
      CutBehind(a[1..], rest);
      CutOne(a[0], a[1..] + rest);
      hide BeforeAmpersand;
      Reassociate(a[0], a[1..], rest);
      Reassociate(a[0], a[1..], BeforeAmpersand(rest));
    }
  }

  lemma CutOne(c: char, rest: string)
    requires c != '&'
    ensures BeforeAmpersand([c] + rest) == [c] + BeforeAmpersand(rest)
  {
    assert ([c] + rest)[1..] == rest;
  }

  lemma Reassociate(c: char, a: string, b: string)
    ensures [c] + (a + b) == [c] + a + b
  {
  }

  lemma DigitsHaveNoAmpersand(digits: string)
    requires Decimals.AllDigits(digits)
    ensures '&' !in digits
  {
    forall i | 0 <= i < |digits| ensures digits[i] != '&' {
      assert Decimals.IsDigit(digits[i]);
    }
  }

  /** A retry period reads back at the very end of the text, and nowhere else. */
  lemma PeriodReadsBack(dsn: string, at: nat, n: nat)
    requires At(dsn, at, PERIOD_KEY + Decimals.Print(n))
    requires Ends(dsn, at + |PERIOD_KEY + Decimals.Print(n)|)
    ensures var end := at + |PERIOD_KEY + Decimals.Print(n)|;
      Period(dsn, at) == if end == |dsn| then Ok(Wrap(n), end) else Wrong(NotAPeriod)
  {
    var digits := Decimals.Print(n);
    Decimals.ValueOfPrint(n);
    hide Decimals.Print, Decimals.Value, Wrap;
    AtBoth(dsn, at, PERIOD_KEY, digits);
    var start: nat := at + |PERIOD_KEY|;
    var end := start + |digits|;
    assert dsn[start..] == digits + dsn[end..];
    DigitsHaveNoAmpersand(digits);
    CutBehind(digits, dsn[end..]);
    hide At;
    if end == |dsn| {
      assert dsn[end..] == "" && digits + "" == digits;
    } else {
      var val := digits + BeforeAmpersand(dsn[end..]);
      assert val[|digits|] == dsn[end];
      assert !Decimals.IsDigit(val[|digits|]);
    }
  }

  // ----- print, then parse -----

  /** What the parser makes of a text that ends at `end`. */
  function Expected(s: Syntax, end: nat, last: bool): Parsed<Resolved> {
    if Plain(s) || (last && PeriodOnlyOutside(s)) then Ok(Meaning(s), end) else Wrong(NotAPeriod)
  }

  predicate Stands(dsn: string, at: nat, s: Syntax) {
    At(dsn, at, Text(s)) && Ends(dsn, at + |Text(s)|)
  }

  predicate ArgsStand(dsn: string, at: nat, args: seq<Syntax>) {
    args != [] && At(dsn, at, Join(args) + ")")
  }

  ghost predicate IsRead(accepts: Accepts, dsn: string, at: nat, s: Syntax) {
    var end := at + |Text(s)|;
    at <= |dsn| && !accepts("") && Parse(accepts, dsn, at) == Expected(s, end, end == |dsn|)
  }

  ghost predicate ArgsAreRead(accepts: Accepts, dsn: string, at: nat, args: seq<Syntax>) {
    && at <= |dsn| && !accepts("")
    && ParseArgs(accepts, dsn, at) == if AllPlain(args) then Ok(Meanings(args), at + |Join(args)| + 1) else Wrong(NotAPeriod)
  }

  lemma GroupAt(dsn: string, at: nat, kind: Kind, inner: string, suffix: string)
    requires At(dsn, at, Name(kind) + "(" + inner + ")" + suffix)
    ensures var open := at + |Name(kind)|;
      && Keyword(dsn, at) == Some(kind) && At(dsn, open, "(" + inner + ")") && At(dsn, open + 1, inner + ")")
      && At(dsn, open + |inner| + 2, suffix)
  {
    var name := Name(kind);
    hide At;
    AtBoth(dsn, at, name + "(" + inner + ")", suffix);
    assert name + "(" + inner + ")" == name + ("(" + inner + ")");
    AtBoth(dsn, at, name, "(" + inner + ")");
    assert name + "(" + inner + ")" == (name + "(") + (inner + ")");
    AtBoth(dsn, at, name + "(", inner + ")");
    KeywordAt(dsn, at, kind);
  }

  lemma KeywordAt(dsn: string, at: nat, kind: Kind)
    requires At(dsn, at, Name(kind) + "(")
    ensures Keyword(dsn, at) == Some(kind)
  {
    CharAt(dsn, at, Name(kind) + "(", 0);
    if kind == RoundRobin && at + |"failover("| <= |dsn| {
      assert dsn[at..at + |"failover("|][0] == dsn[at];
    }
  }

  function Finish(kind: Kind, args: seq<Resolved>, period: Parsed<int>): Parsed<Resolved> {
    if period.Wrong? then Wrong(period.error) else Ok(Composite(kind, args, RetryPeriod(period.value)), period.next)
  }

  lemma ParseKeyword(accepts: Accepts, dsn: string, at: nat, kind: Kind)
    requires at <= |dsn| && !accepts("") && Keyword(dsn, at) == Some(kind) && Balanced(dsn, at + |Name(kind)|)
    ensures at + |Name(kind)| < |dsn|
    ensures var args := ParseArgs(accepts, dsn, at + |Name(kind)| + 1);
      Parse(accepts, dsn, at) == if args.Wrong? then Wrong(args.error) else Finish(kind, args.value, Period(dsn, args.next))
  {
    KeywordLength(dsn, at);
    hide ParseArgs, Keyword, Balanced, Period, Name, LooksLikeKeyword, LeafEnd, RetryPeriod;
  }

  lemma ParseGroup(accepts: Accepts, dsn: string, at: nat, kind: Kind, inner: string, suffix: string)
    requires !accepts("") && Depth("(" + inner + ")") == 0
    requires At(dsn, at, Name(kind) + "(" + inner + ")" + suffix)
    ensures at + |Name(kind)| < |dsn| && at + |Name(kind)| + |inner| + 2 <= |dsn|
    ensures At(dsn, at + |Name(kind)| + 1, inner + ")") && At(dsn, at + |Name(kind)| + |inner| + 2, suffix)
    ensures var args := ParseArgs(accepts, dsn, at + |Name(kind)| + 1);
      Parse(accepts, dsn, at) == if args.Wrong? then Wrong(args.error) else Finish(kind, args.value, Period(dsn, args.next))
  {
    GroupAt(dsn, at, kind, inner, suffix);
    ClosedAt(dsn, at + |Name(kind)|, inner);
    ParseKeyword(accepts, dsn, at, kind);
    hide Keyword, Balanced, ParseArgs, Parse, Depth, Period, Name, Finish;
  }

  lemma PeriodTextIs(period: Option<nat>)
    ensures PeriodText(period) == if period.None? then "" else PERIOD_KEY + Decimals.Print(period.value)
  {
  }

  lemma PeriodBehind(dsn: string, at: nat, period: Option<nat>)
    requires At(dsn, at, PeriodText(period)) && Ends(dsn, at + |PeriodText(period)|)
    ensures var end := at + |PeriodText(period)|;
      Period(dsn, at) == if period.None? then Ok(0, end) else if end == |dsn| then Ok(Wrap(period.value), end) else Wrong(NotAPeriod)
  {
    hide *;
    PeriodTextIs(period);
    if period.None? {
      NoPeriodHere(dsn, at);
    } else {
      PeriodReadsBack(dsn, at, period.value);
    }
  }

  lemma TextOfGroup(kind: Kind, args: seq<Syntax>, period: Option<nat>)
    ensures Text(Group(kind, args, period)) == Name(kind) + "(" + Join(args) + ")" + PeriodText(period)
    ensures |Text(Group(kind, args, period))| == |Name(kind)| + |Join(args)| + 2 + |PeriodText(period)|
  {
    hide Join, PeriodText, Name;
  }

  lemma DepthOfArgs(accepts: Accepts, args: seq<Syntax>)
    requires AllClean(accepts, args)
    ensures Depth("(" + Join(args) + ")") == 0
  {
    DepthOfJoin(accepts, args);
    hide Depth;
    DepthOfWord("");
    DepthOfGroup("", Join(args), "");
  }

  /** A group whose arguments were read. */
  lemma GroupIsRead(accepts: Accepts, dsn: string, at: nat, kind: Kind, args: seq<Syntax>, period: Option<nat>)
    requires AllClean(accepts, args) && Stands(dsn, at, Group(kind, args, period))
    requires ArgsAreRead(accepts, dsn, at + |Name(kind)| + 1, args)
    ensures IsRead(accepts, dsn, at, Group(kind, args, period))
  {
    var end := at + |Text(Group(kind, args, period))|;
    var behind := at + |Name(kind)| + |Join(args)| + 2;
    hide Text, Join, Name, AllClean, At, Ends, Parse, ParseArgs, Period, PeriodText, Expected, Finish, Meanings, AllPlain, Wrap, Depth;
    TextOfGroup(kind, args, period);
    DepthOfArgs(accepts, args);
    ParseGroup(accepts, dsn, at, kind, Join(args), PeriodText(period));
    PeriodBehind(dsn, behind, period);
    ExpectedOfGroup(kind, args, period, Period(dsn, behind), end, end == |dsn|);
  }

  lemma ArgsOfGroup(accepts: Accepts, dsn: string, at: nat, kind: Kind, args: seq<Syntax>, period: Option<nat>)
    requires args != [] && Stands(dsn, at, Group(kind, args, period))
    ensures ArgsStand(dsn, at + |Name(kind)| + 1, args)
  {
    hide Text, Join, Name, At, Ends, PeriodText;
    TextOfGroup(kind, args, period);
    GroupAt(dsn, at, kind, Join(args), PeriodText(period));
  }

  lemma LeafIsRead(accepts: Accepts, dsn: string, at: nat, leaf: string)
    requires !accepts("") && Clean(accepts, Leaf(leaf)) && Stands(dsn, at, Leaf(leaf))
    ensures IsRead(accepts, dsn, at, Leaf(leaf))
  {
    hide Parse, At, CleanLeaf, Ends;
    ParseLeaf(accepts, dsn, at, leaf);
    hide *;
    assert Parse(accepts, dsn, at) == Ok(Single(leaf), at + |leaf|);
  }

  lemma {:induction false} TextIsRead(accepts: Accepts, dsn: string, at: nat, s: Syntax)
    requires !accepts("") && Clean(accepts, s) && Stands(dsn, at, s)
    ensures IsRead(accepts, dsn, at, s)
    decreases s, 1
  {
    match s
    case Leaf(leaf) =>
      hide *;
      LeafIsRead(accepts, dsn, at, leaf);
    case Group(kind, args, period) =>
      assert AllClean(accepts, args) && args != [];
      hide *;
      ArgsOfGroup(accepts, dsn, at, kind, args, period);
      JoinIsRead(accepts, dsn, at + |Name(kind)| + 1, args);
      GroupIsRead(accepts, dsn, at, kind, args, period);
  }

  lemma ExpectedOfGroup(kind: Kind, args: seq<Syntax>, period: Option<nat>, parsed: Parsed<int>, end: nat, last: bool)
    requires parsed == if period.None? then Ok(0, end) else if last then Ok(Wrap(period.value), end) else Wrong(NotAPeriod)
    ensures Expected(Group(kind, args, period), end, last)
         == if AllPlain(args) then Finish(kind, Meanings(args), parsed) else Wrong(NotAPeriod)
  {
    hide Wrap, RetryPeriod;
  }

  lemma ParseLast(accepts: Accepts, dsn: string, at: nat, end: nat)
    requires at <= |dsn| && end < |dsn| && !accepts("")
    requires Parse(accepts, dsn, at).Ok? ==> Parse(accepts, dsn, at).next == end
    ensures var arg := Parse(accepts, dsn, at);
      && (arg.Wrong? ==> ParseArgs(accepts, dsn, at) == Wrong(arg.error))
      && (arg.Ok? && dsn[end] == ')' ==> ParseArgs(accepts, dsn, at) == Ok([arg.value], end + 1))
      && (arg.Ok? && dsn[end] != ')' ==>
            var more := ParseArgs(accepts, dsn, end + 1);
            ParseArgs(accepts, dsn, at) == if more.Wrong? then more else Ok([arg.value] + more.value, more.next))
  {
    hide Parse;
  }

  lemma FirstArg(dsn: string, at: nat, args: seq<Syntax>)
    requires ArgsStand(dsn, at, args)
    ensures |args| > 0
    ensures var end := at + |Text(args[0])|;
      && Stands(dsn, at, args[0]) && end < |dsn| && (|args| == 1 ==> dsn[end] == ')')
      && (|args| > 1 ==> dsn[end] == ' ' && ArgsStand(dsn, end + 1, args[1..]))
  {
    if |args| == 1 {
      assert Join(args) == Text(args[0]);
      hide *;
      SplitOff(dsn, at, Text(args[0]), ")", "");
      StandsThere(dsn, at, args[0]);
    } else {
      JoinBegins(dsn, at, args);
      assert |args| > 1;
      hide *;
      SplitOff(dsn, at, Text(args[0]), " ", Join(args[1..]) + ")");
      StandsThere(dsn, at, args[0]);
      RestStands(dsn, at + |Text(args[0])| + 1, args);
    }
  }

  lemma SplitOff(dsn: string, at: nat, first: string, c: string, rest: string)
    requires |c| == 1 && (At(dsn, at, first + (c + rest)) || (rest == "" && At(dsn, at, first + c)))
    ensures At(dsn, at, first) && at + |first| < |dsn| && dsn[at + |first|] == c[0]
    ensures At(dsn, at + |first| + 1, rest)
  {
    assert rest == "" ==> c + rest == c;
    hide At;
    AtBoth(dsn, at, first, c + rest);
    AtBoth(dsn, at + |first|, c, rest);
    CharAt(dsn, at + |first|, c, 0);
  }

  lemma StandsThere(dsn: string, at: nat, s: Syntax)
    requires At(dsn, at, Text(s)) && at + |Text(s)| < |dsn| && dsn[at + |Text(s)|] in " )"
    ensures Stands(dsn, at, s)
  {
    hide At, Text;
  }

  lemma RestStands(dsn: string, at: nat, args: seq<Syntax>)
    requires |args| > 1 && At(dsn, at, Join(args[1..]) + ")")
    ensures ArgsStand(dsn, at, args[1..])
  {
    hide Join, At;
  }

  lemma JoinBegins(dsn: string, at: nat, args: seq<Syntax>)
    requires ArgsStand(dsn, at, args) && |args| > 1
    ensures At(dsn, at, Text(args[0]) + (" " + (Join(args[1..]) + ")")))
  {
    hide Text, At;
    assert Join(args) + ")" == Text(args[0]) + (" " + (Join(args[1..]) + ")"));
  }

  lemma LengthOfJoin(args: seq<Syntax>)
    requires args != []
    ensures |Join(args)| == |Text(args[0])| + if |args| == 1 then 0 else 1 + |Join(args[1..])|
  {
    hide Text;
  }

  lemma AllOf(args: seq<Syntax>)
    requires args != []
    ensures AllPlain(args) <==> Plain(args[0]) && AllPlain(args[1..])
    ensures Meanings(args) == [Meaning(args[0])] + Meanings(args[1..])
    ensures |args| == 1 ==> AllPlain(args) == Plain(args[0]) && Meanings(args) == [Meaning(args[0])]
  {
    hide Plain, Meaning;
  }

  lemma CleanArgs(accepts: Accepts, args: seq<Syntax>)
    requires args != [] && AllClean(accepts, args)
    ensures Clean(accepts, args[0]) && AllClean(accepts, args[1..])
  {
    hide Clean;
  }

  lemma OnlyArgIsRead(accepts: Accepts, dsn: string, at: nat, args: seq<Syntax>)
    requires |args| == 1 && ArgsStand(dsn, at, args) && IsRead(accepts, dsn, at, args[0])
    ensures ArgsAreRead(accepts, dsn, at, args)
  {
    var end := at + |Text(args[0])|;
    hide Text, Join, Parse, ParseArgs, At, ArgsStand, Expected, Stands;
    FirstArg(dsn, at, args);
    LengthOfJoin(args);
    AllOf(args);
    ExpectedInside(args[0], end);
    hide AllPlain, Meanings, Plain, Meaning;
    ParseLast(accepts, dsn, at, end);
  }

  lemma MoreArgsAreRead(accepts: Accepts, dsn: string, at: nat, args: seq<Syntax>)
    requires |args| > 1 && ArgsStand(dsn, at, args) && IsRead(accepts, dsn, at, args[0])
    requires ArgsAreRead(accepts, dsn, at + |Text(args[0])| + 1, args[1..])
    ensures ArgsAreRead(accepts, dsn, at, args)
  {
    hide *;
    var end := at + |Text(args[0])|;
    FirstArg(dsn, at, args);
    FirstIsRead(accepts, dsn, at, args[0]);
    ParseLast(accepts, dsn, at, end);
    LengthOfJoin(args);
    AllOf(args);
    MoreAreRead(accepts, dsn, at, args);
  }

  lemma FirstIsRead(accepts: Accepts, dsn: string, at: nat, s: Syntax)
    requires IsRead(accepts, dsn, at, s) && at + |Text(s)| < |dsn|
    ensures at <= |dsn| && !accepts("")
    ensures Parse(accepts, dsn, at) == if Plain(s) then Ok(Meaning(s), at + |Text(s)|) else Wrong(NotAPeriod)
  {
    ExpectedInside(s, at + |Text(s)|);
    hide Text, Parse, Plain, Meaning, Expected;
  }

  lemma MoreAreRead(accepts: Accepts, dsn: string, at: nat, args: seq<Syntax>)
    requires |args| > 1 && at <= |dsn| && !accepts("") && at + |Text(args[0])| < |dsn|
    requires |Join(args)| == |Text(args[0])| + 1 + |Join(args[1..])| && Meanings(args) == [Meaning(args[0])] + Meanings(args[1..])
    requires AllPlain(args) <==> Plain(args[0]) && AllPlain(args[1..])
    requires ArgsAreRead(accepts, dsn, at + |Text(args[0])| + 1, args[1..])
    requires Plain(args[0]) ==>
      var more := ParseArgs(accepts, dsn, at + |Text(args[0])| + 1);
      ParseArgs(accepts, dsn, at) == if more.Wrong? then more else Ok([Meaning(args[0])] + more.value, more.next)
    requires !Plain(args[0]) ==> ParseArgs(accepts, dsn, at) == Wrong(NotAPeriod)
    ensures ArgsAreRead(accepts, dsn, at, args)
  {
    hide Text, Join, Parse, ParseArgs, AllPlain, Meanings, Plain, Meaning;
  }

  lemma {:induction false} JoinIsRead(accepts: Accepts, dsn: string, at: nat, args: seq<Syntax>)
    requires !accepts("") && AllClean(accepts, args) && ArgsStand(dsn, at, args)
    ensures ArgsAreRead(accepts, dsn, at, args)
    decreases args, 0
  {
    hide *;
    FirstArg(dsn, at, args);
    CleanArgs(accepts, args);
    TextIsRead(accepts, dsn, at, args[0]);
    if |args| > 1 {
      JoinIsRead(accepts, dsn, at + |Text(args[0])| + 1, args[1..]);
      MoreArgsAreRead(accepts, dsn, at, args);
    } else {
      OnlyArgIsRead(accepts, dsn, at, args);
    }
  }

  lemma ExpectedInside(s: Syntax, end: nat)
    ensures Expected(s, end, false) == if Plain(s) then Ok(Meaning(s), end) else Wrong(NotAPeriod)
  {
  }

  /** The printed form reads back as what it stands for exactly when a retry period stands at most at the very end. */
  lemma PrintThenParse(accepts: Accepts, s: Syntax)
    requires !accepts("") && Clean(accepts, s)
    ensures Resolve(accepts, Text(s)) == Ok(Meaning(s), |Text(s)|) <==> PeriodOnlyOutside(s)
    ensures !PeriodOnlyOutside(s) ==> Resolve(accepts, Text(s)) == Wrong(NotAPeriod)
  {
    hide Parse, Clean, Meaning, Text, Plain;
    assert Text(s)[0..|Text(s)|] == Text(s);
    TextIsRead(accepts, Text(s), 0, s);
    PlainIsOutside(s);
  }

  lemma PlainIsOutside(s: Syntax)
    ensures Plain(s) ==> PeriodOnlyOutside(s)
  {
  }

  // ----- what String() tells -----

  /** String() of a composite: retry periods do not appear in it. */
  function String(t: Resolved): string
    decreases t, 1
  {
    match t
    case Single(dsn) => dsn
    case Composite(kind, transports, _) => Name(kind) + "(" + Strings(transports) + ")"
  }

  function Strings(transports: seq<Resolved>): string
    decreases transports, 0
  {
    if transports == [] then ""
    else if |transports| == 1 then String(transports[0])
    else String(transports[0]) + " " + Strings(transports[1..])
  }

  function Shown(t: Resolved): Syntax
    decreases t, 1
  {
    match t
    case Single(dsn) => Leaf(dsn)
    case Composite(kind, transports, _) => Group(kind, ShownAll(transports), None)
  }

  function ShownAll(transports: seq<Resolved>): seq<Syntax>
    decreases transports, 0
  {
    if transports == [] then [] else [Shown(transports[0])] + ShownAll(transports[1..])
  }

  predicate DefaultPeriods(t: Resolved)
    decreases t, 1
  {
    t.Single? || (t.retryPeriod == 60_000_000_000 && AllDefault(t.transports))
  }

  predicate AllDefault(transports: seq<Resolved>)
    decreases transports, 0
  {
    transports == [] || (DefaultPeriods(transports[0]) && AllDefault(transports[1..]))
  }

  lemma NoPeriodIsDefault()
    ensures RetryPeriod(0) == 60_000_000_000
  {
  }

  lemma {:induction false} ShownText(t: Resolved)
    ensures Text(Shown(t)) == String(t) && Plain(Shown(t))
    ensures Meaning(Shown(t)) == t <==> DefaultPeriods(t)
    decreases t, 1
  {
    match t
    case Single(dsn) =>
    case Composite(kind, transports, _) =>
      NoPeriodIsDefault();
      hide RetryPeriod, Name;
      ShownTexts(transports);
      hide Join, Strings, Meanings, AllDefault, AllPlain;
      var text := Name(kind) + "(" + Strings(transports) + ")";
      assert text + "" == text;
  }

  lemma {:induction false} ShownTexts(transports: seq<Resolved>)
    ensures |ShownAll(transports)| == |transports| && Join(ShownAll(transports)) == Strings(transports)
    ensures AllPlain(ShownAll(transports))
    ensures Meanings(ShownAll(transports)) == transports <==> AllDefault(transports)
    decreases transports, 0
  {
    hide Text, String, Shown, Meaning, DefaultPeriods, Plain;
    if transports != [] {
      ShownText(transports[0]);
      ShownTexts(transports[1..]);
      var shown := ShownAll(transports);
      assert shown[0] == Shown(transports[0]) && shown[1..] == ShownAll(transports[1..]);
      SameSeq(Meaning(shown[0]), Meanings(shown[1..]), transports);
    }
  }

  lemma SameSeq(first: Resolved, rest: seq<Resolved>, all: seq<Resolved>)
    requires all != []
    ensures [first] + rest == all <==> first == all[0] && rest == all[1..]
  {
    if [first] + rest == all {
      assert ([first] + rest)[0] == first && ([first] + rest)[1..] == rest;
    } else {
      assert [all[0]] + all[1..] == all;
    }
  }

  /** What a composite shows of itself always resolves, to the same composite exactly if all its periods are the default. */
  lemma StringReadsBack(accepts: Accepts, t: Resolved)
    requires !accepts("") && Clean(accepts, Shown(t))
    ensures Resolve(accepts, String(t)).Ok?
    ensures Resolve(accepts, String(t)) == Ok(t, |String(t)|) <==> DefaultPeriods(t)
  {
    hide Clean, Resolve, Plain, Text, String, Shown, Meaning, DefaultPeriods;
    ShownText(t);
    PlainIsOutside(Shown(t));
    PrintThenParse(accepts, Shown(t));
  }

  const MOST_SECONDS := 9_223_372_036

  /** A number of seconds arrives as that period exactly when it is positive and fits time.Duration. */
  lemma ExactPeriods(n: nat)
    ensures RetryPeriod(Wrap(n)) == n * 1_000_000_000 <==> 0 < n <= 9_223_372_036
  {
    if 0 < n <= MOST_SECONDS {
      assert Wrap(n) == n && Wrap(n * SECOND) == n * SECOND;
    } else {
      assert RetryPeriod(Wrap(n)) < TWO_63;
      assert n > MOST_SECONDS ==> n * SECOND >= TWO_63;
    }
  }

  // ----- what stands between arguments -----

  /** One leaf before a closing parenthesis, as the only or the last argument. */
  lemma LastLeaf(accepts: Accepts, dsn: string, at: nat, leaf: string)
    requires !accepts("") && accepts(leaf) && CleanLeaf(leaf) && At(dsn, at, leaf + ")")
    ensures at <= |dsn| && ParseArgs(accepts, dsn, at) == Ok([Single(leaf)], at + |leaf| + 1)
  {
    hide At, CleanLeaf, Parse, ParseArgs;
    SplitOff(dsn, at, leaf, ")", "");
    ParseLeaf(accepts, dsn, at, leaf);
    ParseLast(accepts, dsn, at, at + |leaf|);
  }

  lemma GroupOf(accepts: Accepts, dsn: string, at: nat, kind: Kind, inner: string, args: seq<Resolved>)
    requires !accepts("") && Depth("(" + inner + ")") == 0 && At(dsn, at, Name(kind) + "(" + inner + ")")
    requires var start := at + |Name(kind)| + 1;
      start <= |dsn| && ParseArgs(accepts, dsn, start) == Ok(args, start + |inner| + 1)
    requires !At(dsn, at + |Name(kind)| + |inner| + 2, PERIOD_KEY)
    ensures Parse(accepts, dsn, at) == Ok(Composite(kind, args, DEFAULT_PERIOD), at + |Name(kind)| + |inner| + 2)
  {
    hide *;
    NothingBehind(Name(kind) + "(" + inner + ")");
    ParseGroup(accepts, dsn, at, kind, inner, "");
    var end := at + |Name(kind)| + |inner| + 2;
    NoPeriodAt(dsn, end);
    FinishWithout(kind, args, end);
  }

  lemma NothingBehind(text: string)
    ensures text + "" == text
  {
  }

  lemma FinishWithout(kind: Kind, args: seq<Resolved>, end: nat)
    ensures Finish(kind, args, Ok(0, end)) == Ok(Composite(kind, args, DEFAULT_PERIOD), end)
  {
  }

  lemma NoPeriodAt(dsn: string, at: nat)
    requires at <= |dsn| && !At(dsn, at, PERIOD_KEY)
    ensures Period(dsn, at) == Ok(0, at)
  {
  }

  /** A group as the first of two arguments: the one character behind it is skipped, whatever it is. */
  lemma TwoArgs(accepts: Accepts, dsn: string, at: nat, first: string, t: Resolved, c: char, leaf: string)
    requires !accepts("") && accepts(leaf) && CleanLeaf(leaf) && c != ')'
    requires At(dsn, at, first + ([c] + (leaf + ")")))
    requires at <= |dsn| && Parse(accepts, dsn, at) == Ok(t, at + |first|)
    ensures ParseArgs(accepts, dsn, at) == Ok([t, Single(leaf)], at + |first| + 1 + |leaf| + 1)
  {
    hide At, CleanLeaf, Parse, ParseArgs;
    SplitOff(dsn, at, first, [c], leaf + ")");
    LastLeaf(accepts, dsn, at + |first| + 1, leaf);
    ParseLast(accepts, dsn, at, at + |first|);
    assert [t] + [Single(leaf)] == [t, Single(leaf)];
  }

  /** `failover(` `group` `c` `b` `)`, where `group` is `failover(` `a` `)`. */
  function Separated(a: string, c: char, b: string): string {
    "failover(" + ("failover(" + a + ")" + ([c] + (b + ")")))
  }

  lemma SeparatedAt(a: string, c: char, b: string)
    ensures var dsn, group := Separated(a, c, b), Name(Failover) + "(" + a + ")";
      && |Name(Failover)| == 8 && |group| == 10 + |a| && |dsn| == 9 + |group| + 1 + |b| + 1 && dsn[9 + |group|] == c
      && At(dsn, 9, group + ([c] + (b + ")"))) && At(dsn, 9, group) && At(dsn, 18, a + ")")
      && At(dsn, 0, Name(Failover) + "(" + (group + ([c] + b)) + ")")
  {
    var dsn, group := Separated(a, c, b), Name(Failover) + "(" + a + ")";
    assert group == "failover(" + a + ")";
    var rest := group + ([c] + (b + ")"));
    assert dsn[9..] == rest && dsn[9..9 + |rest|] == rest;
    hide At;
    assert At(dsn, 9, rest) by { AtHere(dsn, 9, rest); }
    SplitOff(dsn, 9, group, [c], b + ")");
    assert group == "failover(" + (a + ")");
    AtBoth(dsn, 9, "failover(", a + ")");
    assert dsn == Name(Failover) + "(" + (group + ([c] + b)) + ")";
    assert dsn[0..|dsn|] == dsn;
    AtHere(dsn, 0, dsn);
  }

  lemma AtHere(dsn: string, at: nat, text: string)
    requires at + |text| <= |dsn| && dsn[at..at + |text|] == text
    ensures At(dsn, at, text)
  {
  }

  lemma SeparatedDepth(a: string, c: char, b: string)
    requires CleanLeaf(a) && CleanLeaf(b) && c != '(' && c != ')'
    ensures Depth("(" + a + ")") == 0
    ensures Depth("(" + (Name(Failover) + "(" + a + ")" + ([c] + b)) + ")") == 0
  {
    NameIsAWord(Failover);
    DepthOfWord(Name(Failover));
    DepthOfWord(a);
    DepthOfWord([c] + b);
    DepthOfWord("");
    hide Depth, CleanLeaf, Name;
    DepthOfGroup(Name(Failover), a, [c] + b);
    DepthOfGroup("", Name(Failover) + "(" + a + ")" + ([c] + b), "");
  }

  const PERIOD_WORD := "retry_period="

  /** Behind the nested group no retry period is found, unless the separator and the leaf together look like one. */
  lemma NoPeriodBetween(a: string, c: char, b: string)
    requires CleanLeaf(b) && (c == '?' ==> !(PERIOD_WORD <= b))
    ensures !At(Separated(a, c, b), 9 + 10 + |a|, PERIOD_KEY)
  {
    var dsn, at := Separated(a, c, b), 19 + |a|;
    hide At, Separated, CleanLeaf;
    SeparatedTail(a, c, b);
    if c != '?' {
      NotAt(dsn, at, PERIOD_KEY, 0);
    } else {
      PeriodKeyIs();
      var k := if |b| < |PERIOD_WORD| then |b| else DifferAt(b, PERIOD_WORD);
      NotAt(dsn, at, PERIOD_KEY, k + 1);
    }
  }

  lemma PeriodKeyIs()
    ensures |PERIOD_KEY| == |PERIOD_WORD| + 1
    ensures forall k :: 0 <= k < |PERIOD_WORD| ==> PERIOD_KEY[k + 1] == PERIOD_WORD[k] != ')'
  {
  }

  lemma NotAt(dsn: string, at: nat, text: string, k: nat)
    requires k < |text| && (at + k < |dsn| ==> dsn[at + k] != text[k])
    ensures !At(dsn, at, text)
  {
    if at + |text| <= |dsn| {
      assert dsn[at..at + |text|][k] == dsn[at + k];
    }
  }

  lemma SeparatedTail(a: string, c: char, b: string)
    ensures var dsn, at := Separated(a, c, b), 19 + |a|;
      |dsn| == at + 1 + |b| + 1 && dsn[at] == c && dsn[|dsn| - 1] == ')' && forall k :: 0 <= k < |b| ==> dsn[at + 1 + k] == b[k]
  {
  }

  /** Where a string that does not begin with `word` departs from it. */
  ghost function DifferAt(s: string, word: string): (k: nat)
    requires |s| >= |word| && !(word <= s)
    ensures k < |word| && s[k] != word[k]
  {
    var k: nat :| k < |word| && s[k] != word[k];
    k
  }

  /**
   The parser takes more than the grammar: behind a nested group any character separates, except a
   parenthesis, and a "?" that begins a retry period.
   */
  lemma AnySeparator(accepts: Accepts, a: string, c: char, b: string)
    requires !accepts("") && accepts(a) && accepts(b) && CleanLeaf(a) && CleanLeaf(b)
    requires c != '(' && c != ')' && (c == '?' ==> !(PERIOD_WORD <= b))
    ensures Resolve(accepts, Separated(a, c, b))
         == Ok(Composite(Failover, [Composite(Failover, [Single(a)], DEFAULT_PERIOD), Single(b)], DEFAULT_PERIOD), |Separated(a, c, b)|)
  {
    var dsn, group := Separated(a, c, b), Name(Failover) + "(" + a + ")";
    var t := Composite(Failover, [Single(a)], DEFAULT_PERIOD);
    hide *;
    SeparatedAt(a, c, b);
    SeparatedDepth(a, c, b);
    NoPeriodBetween(a, c, b);
    NoPeriodAtEnd(dsn);
    assert Parse(accepts, dsn, 9) == Ok(t, 9 + |group|) by {
      LastLeaf(accepts, dsn, 18, a);
      GroupOf(accepts, dsn, 9, Failover, a, [Single(a)]);
    }
    TwoArgs(accepts, dsn, 9, group, t, c, b);
    GroupOf(accepts, dsn, 0, Failover, group + ([c] + b), [t, Single(b)]);
    ResolveWhole(accepts, dsn, Composite(Failover, [t, Single(b)], DEFAULT_PERIOD));
  }

  lemma NoPeriodAtEnd(dsn: string)
    ensures !At(dsn, |dsn|, PERIOD_KEY)
  {
  }

  lemma ResolveWhole(accepts: Accepts, dsn: string, t: Resolved)
    requires !accepts("") && Parse(accepts, dsn, 0) == Ok(t, |dsn|)
    ensures Resolve(accepts, dsn) == Ok(t, |dsn|)
  {
    hide Parse;
  }
}
