/**
 * Query and parameter construction shared by the pull-request and issue commands:
 * quoting of search values, assembly of the search query, the query keys a
 * "create in browser" URL carries, the split of reviewers into users and teams,
 * and the substitution of "@me" by the current login.
 */
module PrParams {
  import opened Wrappers
  import opened Strings

  // ---------------------------------------------------------------------------
  // Go's %q (strconv.Quote) and its inverse
  // ---------------------------------------------------------------------------

  const LowerHex: string := "0123456789abcdef"

  /** Characters that force a search value into quotes. */
  predicate IsQuoteTrigger(c: char)
  {
    c == ' ' || c == '"' || c == '\t' || c == '\r' || c == '\n'
  }

  /** strings.ContainsAny(v, " \"\t\r\n"). */
  predicate NeedsQuoting(v: string)
  {
    exists i :: 0 <= i < |v| && IsQuoteTrigger(v[i])
  }

  /** A character strconv.Quote writes as `\x` and two lower-case hex digits:
    * the ASCII control characters without a short escape, and DEL. */
  predicate IsHexEscaped(c: char)
  {
    (c as int < 0x20 || c as int == 0x7f)
      && c as int !in {7, 8, 9, 10, 11, 12, 13}
  }

  /** The letter of a short escape (`\a` … `\v`), for the seven characters that have one. */
  function ShortEscape(c: char): Option<char>
  {
    match c as int
    case 7 => Some('a')
    case 8 => Some('b')
    case 12 => Some('f')
    case 10 => Some('n')
    case 13 => Some('r')
    case 9 => Some('t')
    case 11 => Some('v')
    case _ => None
  }

  /** The character a short escape letter stands for. */
  function ShortUnescape(l: char): Option<char>
  {
    match l
    case 'a' => Some(7 as char)
    case 'b' => Some(8 as char)
    case 'f' => Some(12 as char)
    case 'n' => Some(10 as char)
    case 'r' => Some(13 as char)
    case 't' => Some(9 as char)
    case 'v' => Some(11 as char)
    case _ => None
  }

  function HexValue(h: char): Option<nat>
  {
    if '0' <= h <= '9' then Some(h as int - '0' as int)
    else if 'a' <= h <= 'f' then Some(h as int - 'a' as int + 10)
    else None
  }

  /** How strconv.Quote writes one character inside the quotes. Characters
    * outside ASCII are written as themselves. */
  function EscapeChar(c: char): string
  {
    if c == '"' || c == '\\' then ['\\', c]
    else if ShortEscape(c).Some? then ['\\', ShortEscape(c).value]
    else if IsHexEscaped(c) then ['\\', 'x', LowerHex[c as int / 16], LowerHex[c as int % 16]]
    else [c]
  }

  function Escape(v: string): string
  {
    if v == [] then [] else EscapeChar(v[0]) + Escape(v[1..])
  }

  /** fmt.Sprintf("%q", v) for a string. */
  function GoQuote(v: string): (r: string)
    ensures |r| >= |v| + 2
    ensures r[0] == '"' && r[|r| - 1] == '"'
  {
    EscapeLength(v);
    "\"" + Escape(v) + "\""
  }

  lemma {:induction false} EscapeLength(v: string)
    ensures |Escape(v)| >= |v|
  {
    if v != [] {
      EscapeLength(v[1..]);
    }
  }

  function Prepend(c: char, o: Option<string>): Option<string>
  {
    match o
    case None => None
    case Some(s) => Some([c] + s)
  }

  /** Reads back the inside of a double-quoted Go string literal: every escape
    * strconv.Quote can write is understood, and an unescaped quote is rejected. */
  function Unescape(s: string): Option<string>
    decreases |s|
  {
    if s == [] then Some([])
    else if s[0] == '"' then None
    else if s[0] != '\\' then Prepend(s[0], Unescape(s[1..]))
    else if |s| < 2 then None
    else if s[1] == '"' || s[1] == '\\' then Prepend(s[1], Unescape(s[2..]))
    else if ShortUnescape(s[1]).Some? then Prepend(ShortUnescape(s[1]).value, Unescape(s[2..]))
    else if s[1] == 'x' && |s| >= 4 && HexValue(s[2]).Some? && HexValue(s[3]).Some? then
      Prepend((16 * HexValue(s[2]).value + HexValue(s[3]).value) as char, Unescape(s[4..]))
    else None
  }

  /** strconv.Unquote for double-quoted literals. */
  function Unquote(s: string): Option<string>
  {
    if |s| >= 2 && s[0] == '"' && s[|s| - 1] == '"' then Unescape(s[1..|s| - 1]) else None
  }

  lemma HexDigitValue(n: nat)
    requires n < 16
    ensures HexValue(LowerHex[n]) == Some(n)
  {
  }

  lemma EscapeCharRoundTrip(c: char, rest: string)
    ensures Unescape(EscapeChar(c) + rest) == Prepend(c, Unescape(rest))
  {
    var e := EscapeChar(c) + rest;
    if c == '"' || c == '\\' {
      assert e[2..] == rest;
    } else if ShortEscape(c).Some? {
      ShortEscapeRoundTrip(c);
      assert e[2..] == rest;
    } else if IsHexEscaped(c) {
      HexEscapeRoundTrip(c, rest);
    } else {
      assert e[1..] == rest;
    }
  }

  lemma ShortEscapeRoundTrip(c: char)
    requires ShortEscape(c).Some?
    ensures ShortUnescape(ShortEscape(c).value) == Some(c)
    ensures ShortEscape(c).value !in {'"', '\\', 'x'}
  {
  }

  lemma HexEscapeRoundTrip(c: char, rest: string)
    requires IsHexEscaped(c)
    ensures Unescape(EscapeChar(c) + rest) == Prepend(c, Unescape(rest))
  {
    var e := EscapeChar(c) + rest;
    var hi, lo := c as int / 16, c as int % 16;
    HexDigitValue(hi);
    HexDigitValue(lo);
    assert ShortEscape(c).None?;
    assert e[..4] == ['\\', 'x', LowerHex[hi], LowerHex[lo]];
    assert ShortUnescape('x').None?;
    assert (16 * hi + lo) as char == c;
    assert e[4..] == rest;
  }

  lemma {:induction false} EscapeRoundTrip(v: string)
    ensures Unescape(Escape(v)) == Some(v)
  {
    if v != [] {
      EscapeRoundTrip(v[1..]);
      EscapeCharRoundTrip(v[0], Escape(v[1..]));
      assert [v[0]] + v[1..] == v;
    }
  }

  /** %q is undone by strconv.Unquote: quoting loses nothing. */
  lemma QuoteRoundTrip(v: string)
    ensures Unquote(GoQuote(v)) == Some(v)
  {
    var q := GoQuote(v);
    assert q[1..|q| - 1] == Escape(v);
    EscapeRoundTrip(v);
  }

  /** quoteValueForQuery: a value is quoted exactly when it holds a space, a
    * double quote, a tab, a carriage return or a newline. */
  function QuoteValueForQuery(v: string): (r: string)
    ensures !NeedsQuoting(v) <==> r == v
    ensures NeedsQuoting(v) ==> Unquote(r) == Some(v)
  {
    if NeedsQuoting(v) then
      QuoteRoundTrip(v);
      GoQuote(v)
    else v
  }

  // ---------------------------------------------------------------------------
  // The search query of ListURLWithQuery
  // ---------------------------------------------------------------------------

  datatype FilterOptions = FilterOptions(
    entity: string, state: string, assignee: string, labels: seq<string>,
    author: string, baseBranch: string, mention: string, milestone: string)

  /** The search qualifiers the command emits, in the order it emits them. */
  datatype Kind = Is | Assignee | Label | Author | Base | Mentions | Milestone
  {
    function Name(): string
    {
      match this
      case Is => "is"
      case Assignee => "assignee"
      case Label => "label"
      case Author => "author"
      case Base => "base"
      case Mentions => "mentions"
      case Milestone => "milestone"
    }

    /** Position of the qualifier kind in the query. */
    function Rank(): nat
    {
      match this
      case Is => 0
      case Assignee => 1
      case Label => 2
      case Author => 3
      case Base => 4
      case Mentions => 5
      case Milestone => 6
    }
  }

  /** One `kind:value` qualifier of the search query. */
  datatype Token = Token(kind: Kind, value: string)
  {
    function Text(): string { kind.Name() + ":" + value }
  }

  /** A qualifier contributed only by a non-empty option. */
  function Optional(kind: Kind, v: string): seq<Token>
  {
    if v == "" then [] else [Token(kind, v)]
  }

  /** Every value quoted as a search value would be. */
  function QuoteAll(vs: seq<string>): (r: seq<string>)
    ensures |r| == |vs|
    ensures forall i :: 0 <= i < |vs| ==> r[i] == QuoteValueForQuery(vs[i])
  {
    if vs == [] then [] else [QuoteValueForQuery(vs[0])] + QuoteAll(vs[1..])
  }

  function LabelTokens(labels: seq<string>): seq<Token>
  {
    if labels == [] then []
    else [Token(Label, QuoteValueForQuery(labels[0]))] + LabelTokens(labels[1..])
  }

  function StateTokens(o: FilterOptions): seq<Token>
  {
    if o.state != "all" then [Token(Is, o.state)] else []
  }

  function MilestoneTokens(o: FilterOptions): seq<Token>
  {
    if o.milestone != "" then [Token(Milestone, QuoteValueForQuery(o.milestone))] else []
  }

  /** The qualifiers that come after the labels. */
  function TailTokens(o: FilterOptions): seq<Token>
  {
    Optional(Author, o.author) + Optional(Base, o.baseBranch)
      + Optional(Mentions, o.mention) + MilestoneTokens(o)
  }

  /** The qualifiers ListURLWithQuery appends, in the order it appends them. */
  function Tokens(o: FilterOptions): seq<Token>
  {
    [Token(Is, o.entity)] + StateTokens(o) + Optional(Assignee, o.assignee)
      + LabelTokens(o.labels) + TailTokens(o)
  }

  /** The values of the qualifiers of one kind, in query order. */
  function ValuesOf(ts: seq<Token>, kind: Kind): seq<string>
  {
    if ts == [] then []
    else (if ts[0].kind == kind then [ts[0].value] else []) + ValuesOf(ts[1..], kind)
  }

  predicate Ranked(ts: seq<Token>)
  {
    forall i, j :: 0 <= i < j < |ts| ==> ts[i].kind.Rank() <= ts[j].kind.Rank()
  }

  lemma {:induction false} ValuesOfConcat(a: seq<Token>, b: seq<Token>, kind: Kind)
    ensures ValuesOf(a + b, kind) == ValuesOf(a, kind) + ValuesOf(b, kind)
    decreases |a|
  {
    if a != [] {
      assert (a + b)[1..] == a[1..] + b;
      ValuesOfConcat(a[1..], b, kind);
      assert ValuesOf(a + b, kind)
        == (if a[0].kind == kind then [a[0].value] else []) + ValuesOf(a[1..] + b, kind);
    } else {
      assert a + b == b;
    }
  }

  lemma ValuesOfSingle(t: Token, kind: Kind)
    ensures ValuesOf([t], kind) == if t.kind == kind then [t.value] else []
  {
    assert [t][1..] == [];
  }

  /** An optional qualifier of another kind contributes nothing. */
  lemma OptionalOtherKind(k: Kind, v: string, kind: Kind)
    ensures ValuesOf(Optional(k, v), kind) == if k == kind && v != "" then [v] else []
  {
    if v != "" {
      ValuesOfSingle(Token(k, v), kind);
    }
  }

  lemma {:induction false} LabelTokensShape(labels: seq<string>)
    ensures |LabelTokens(labels)| == |labels|
    ensures forall i :: 0 <= i < |labels| ==>
      LabelTokens(labels)[i] == Token(Label, QuoteValueForQuery(labels[i]))
  {
    if labels != [] {
      LabelTokensShape(labels[1..]);
    }
  }

  lemma {:induction false} ValuesOfOtherKind(ts: seq<Token>, kind: Kind)
    requires forall i :: 0 <= i < |ts| ==> ts[i].kind != kind
    ensures ValuesOf(ts, kind) == []
  {
    if ts != [] {
      ValuesOfOtherKind(ts[1..], kind);
    }
  }

  lemma {:induction false} LabelValues(labels: seq<string>)
    ensures ValuesOf(LabelTokens(labels), Label)
      == QuoteAll(labels)
  {
    if labels != [] {
      LabelValues(labels[1..]);
      ValuesOfConcat([Token(Label, QuoteValueForQuery(labels[0]))], LabelTokens(labels[1..]), Label);
    }
  }

  /** The values of one kind, collected group by group. */
  lemma ValuesByGroup(o: FilterOptions, kind: Kind)
    ensures ValuesOf(Tokens(o), kind)
      == ValuesOf([Token(Is, o.entity)], kind) + ValuesOf(StateTokens(o), kind)
        + ValuesOf(Optional(Assignee, o.assignee), kind)
        + ValuesOf(LabelTokens(o.labels), kind) + ValuesOf(TailTokens(o), kind)
  {
    var a := [Token(Is, o.entity)] + StateTokens(o);
    var b := a + Optional(Assignee, o.assignee);
    var c := b + LabelTokens(o.labels);
    ValuesOfConcat(c, TailTokens(o), kind);
    ValuesOfConcat(b, LabelTokens(o.labels), kind);
    ValuesOfConcat(a, Optional(Assignee, o.assignee), kind);
    ValuesOfConcat([Token(Is, o.entity)], StateTokens(o), kind);
  }

  lemma TailValues(o: FilterOptions, kind: Kind)
    ensures ValuesOf(TailTokens(o), kind)
      == ValuesOf(Optional(Author, o.author), kind) + ValuesOf(Optional(Base, o.baseBranch), kind)
        + ValuesOf(Optional(Mentions, o.mention), kind) + ValuesOf(MilestoneTokens(o), kind)
  {
    var a := Optional(Author, o.author) + Optional(Base, o.baseBranch);
    var b := a + Optional(Mentions, o.mention);
    ValuesOfConcat(b, MilestoneTokens(o), kind);
    ValuesOfConcat(a, Optional(Mentions, o.mention), kind);
    ValuesOfConcat(Optional(Author, o.author), Optional(Base, o.baseBranch), kind);
  }

  /** The option behind each single-valued qualifier. */
  function OptionFor(o: FilterOptions, kind: Kind): string
  {
    match kind
    case Assignee => o.assignee
    case Author => o.author
    case Base => o.baseBranch
    case Mentions => o.mention
    case _ => ""
  }

  /** Reference definition: the values the query should give each kind of
    * qualifier, read off the options directly. */
  function ExpectedValues(o: FilterOptions, kind: Kind): seq<string>
  {
    match kind
    case Is => [o.entity] + (if o.state != "all" then [o.state] else [])
    case Label => QuoteAll(o.labels)
    case Milestone => if o.milestone == "" then [] else [QuoteValueForQuery(o.milestone)]
    case _ => if OptionFor(o, kind) == "" then [] else [OptionFor(o, kind)]
  }

  lemma LabelGroupValues(labels: seq<string>, kind: Kind)
    ensures ValuesOf(LabelTokens(labels), kind) == if kind == Label then QuoteAll(labels) else []
  {
    if kind == Label {
      LabelValues(labels);
    } else {
      LabelTokensShape(labels);
      ValuesOfOtherKind(LabelTokens(labels), kind);
    }
  }

  function When(c: bool, v: string): seq<string>
  {
    if c then [v] else []
  }

  lemma TailClosed(o: FilterOptions, kind: Kind)
    ensures ValuesOf(TailTokens(o), kind)
      == When(kind == Author && o.author != "", o.author)
        + When(kind == Base && o.baseBranch != "", o.baseBranch)
        + When(kind == Mentions && o.mention != "", o.mention)
        + When(kind == Milestone && o.milestone != "", QuoteValueForQuery(o.milestone))
  {
    TailValues(o, kind);
    OptionalOtherKind(Author, o.author, kind);
    OptionalOtherKind(Base, o.baseBranch, kind);
    OptionalOtherKind(Mentions, o.mention, kind);
    MilestoneValues(o, kind);
  }

  /** The values of one kind, group by group, in closed form. */
  lemma TokensClosed(o: FilterOptions, kind: Kind)
    ensures ValuesOf(Tokens(o), kind)
      == When(kind == Is, o.entity) + When(kind == Is && o.state != "all", o.state)
        + When(kind == Assignee && o.assignee != "", o.assignee)
        + (if kind == Label then QuoteAll(o.labels) else [])
        + ValuesOf(TailTokens(o), kind)
  {
    ValuesByGroup(o, kind);
    ValuesOfSingle(Token(Is, o.entity), kind);
    StateValues(o, kind);
    OptionalOtherKind(Assignee, o.assignee, kind);
    LabelGroupValues(o.labels, kind);
  }

  /** Every kind of qualifier carries exactly its expected values, in order. */
  lemma TokenValues(o: FilterOptions, kind: Kind)
    ensures ValuesOf(Tokens(o), kind) == ExpectedValues(o, kind)
  {
    if kind == Is || kind == Assignee || kind == Label {
      HeadKindValues(o, kind);
    } else {
      TailKindValues(o, kind);
    }
  }

  lemma HeadKindValues(o: FilterOptions, kind: Kind)
    requires kind == Is || kind == Assignee || kind == Label
    ensures ValuesOf(Tokens(o), kind) == ExpectedValues(o, kind)
  {
    TokensClosed(o, kind);
    TailClosed(o, kind);
    var none: seq<string> := [];
    assert ValuesOf(TailTokens(o), kind) == none;
  }

  lemma TailKindValues(o: FilterOptions, kind: Kind)
    requires kind != Is && kind != Assignee && kind != Label
    ensures ValuesOf(Tokens(o), kind) == ExpectedValues(o, kind)
  {
    TokensClosed(o, kind);
    TailClosed(o, kind);
    var none: seq<string> := [];
    assert ValuesOf(Tokens(o), kind) == none + ValuesOf(TailTokens(o), kind);
    match kind
    case Author =>
      assert ValuesOf(TailTokens(o), kind) == When(o.author != "", o.author);
    case Base =>
      assert ValuesOf(TailTokens(o), kind) == When(o.baseBranch != "", o.baseBranch);
    case Mentions =>
      assert ValuesOf(TailTokens(o), kind) == When(o.mention != "", o.mention);
    case Milestone =>
      assert ValuesOf(TailTokens(o), kind) == When(o.milestone != "", QuoteValueForQuery(o.milestone));
  }

  /** The query starts with the entity, and names the state exactly when it is
    * not "all". */
  lemma EntityAndState(o: FilterOptions)
    ensures Tokens(o)[0] == Token(Is, o.entity)
    ensures ValuesOf(Tokens(o), Is) == [o.entity] + (if o.state != "all" then [o.state] else [])
  {
    TokenValues(o, Is);
  }

  /** Every label is a qualifier, in input order, quoted when needed. */
  lemma LabelsInOrder(o: FilterOptions)
    ensures ValuesOf(Tokens(o), Label) == QuoteAll(o.labels)
  {
    TokenValues(o, Label);
  }

  lemma StateValues(o: FilterOptions, kind: Kind)
    ensures ValuesOf(StateTokens(o), kind) == if kind == Is && o.state != "all" then [o.state] else []
  {
    if o.state != "all" {
      ValuesOfSingle(Token(Is, o.state), kind);
    }
  }

  lemma MilestoneValues(o: FilterOptions, kind: Kind)
    ensures ValuesOf(MilestoneTokens(o), kind)
      == if kind == Milestone && o.milestone != "" then [QuoteValueForQuery(o.milestone)] else []
  {
    if o.milestone != "" {
      ValuesOfSingle(Token(Milestone, QuoteValueForQuery(o.milestone)), kind);
    }
  }

  /** Each remaining option qualifies the query exactly when it is non-empty. */
  lemma OptionalQualifiers(o: FilterOptions)
    ensures ValuesOf(Tokens(o), Assignee) == (if o.assignee == "" then [] else [o.assignee])
    ensures ValuesOf(Tokens(o), Author) == (if o.author == "" then [] else [o.author])
    ensures ValuesOf(Tokens(o), Base) == (if o.baseBranch == "" then [] else [o.baseBranch])
    ensures ValuesOf(Tokens(o), Mentions) == (if o.mention == "" then [] else [o.mention])
    ensures ValuesOf(Tokens(o), Milestone)
      == (if o.milestone == "" then [] else [QuoteValueForQuery(o.milestone)])
  {
    TokenValues(o, Assignee);
    TokenValues(o, Author);
    TokenValues(o, Base);
    TokenValues(o, Mentions);
    TokenValues(o, Milestone);
  }

  /** Every qualifier of `ts` ranks between `lo` and `hi`. */
  predicate RanksWithin(ts: seq<Token>, lo: nat, hi: nat)
  {
    forall i :: 0 <= i < |ts| ==> lo <= ts[i].kind.Rank() <= hi
  }

  /** Appending a group of qualifiers that all rank `k` after qualifiers ranking
    * between `lo` and `k` keeps the order. */
  lemma AppendGroup(a: seq<Token>, b: seq<Token>, lo: nat, k: nat)
    requires Ranked(a) && RanksWithin(a, lo, k) && lo <= k
    requires forall j :: 0 <= j < |b| ==> b[j].kind.Rank() == k
    ensures Ranked(a + b) && RanksWithin(a + b, lo, k)
  {
    ConcatRanked(a, b, k);
    var c := a + b;
    forall i | 0 <= i < |c|
      ensures lo <= c[i].kind.Rank() <= k
    {
      if i < |a| {
        assert c[i] == a[i];
      } else {
        assert c[i] == b[i - |a|];
      }
    }
  }

  /** Qualifiers ranking at most `k` followed by qualifiers ranking at least `k`
    * stay in order. */
  lemma ConcatRanked(a: seq<Token>, b: seq<Token>, k: nat)
    requires Ranked(a) && Ranked(b)
    requires forall i :: 0 <= i < |a| ==> a[i].kind.Rank() <= k
    requires forall j :: 0 <= j < |b| ==> k <= b[j].kind.Rank()
    ensures Ranked(a + b)
  {
    var c := a + b;
    forall i, j | 0 <= i < j < |c|
      ensures c[i].kind.Rank() <= c[j].kind.Rank()
    {
      if j < |a| {
        assert c[i] == a[i] && c[j] == a[j];
      } else if i < |a| {
        assert c[i] == a[i] && c[j] == b[j - |a|];
      } else {
        assert c[i] == b[i - |a|] && c[j] == b[j - |a|];
      }
    }
  }

  /** The qualifiers up to the labels, ranked, none ranking past the labels. */
  lemma HeadRanked(o: FilterOptions)
    ensures var h := [Token(Is, o.entity)] + StateTokens(o) + Optional(Assignee, o.assignee) + LabelTokens(o.labels);
      Ranked(h) && RanksWithin(h, 0, 2)
  {
    LabelTokensShape(o.labels);
    var a1 := [Token(Is, o.entity)];
    var a2 := a1 + StateTokens(o);
    AppendGroup(a1, StateTokens(o), 0, 0);
    var a3 := a2 + Optional(Assignee, o.assignee);
    AppendGroup(a2, Optional(Assignee, o.assignee), 0, 1);
    AppendGroup(a3, LabelTokens(o.labels), 0, 2);
  }

  /** The qualifiers after the labels, ranked, none ranking before the author. */
  lemma TailRanked(o: FilterOptions)
    ensures Ranked(TailTokens(o)) && RanksWithin(TailTokens(o), 3, 6)
  {
    var a1 := Optional(Author, o.author);
    var a2 := a1 + Optional(Base, o.baseBranch);
    AppendGroup(a1, Optional(Base, o.baseBranch), 3, 4);
    var a3 := a2 + Optional(Mentions, o.mention);
    AppendGroup(a2, Optional(Mentions, o.mention), 3, 5);
    AppendGroup(a3, MilestoneTokens(o), 3, 6);
  }

  /** Qualifiers appear in the fixed order is, assignee, label, author, base,
    * mentions, milestone. */
  lemma TokensRanked(o: FilterOptions)
    ensures Ranked(Tokens(o))
  {
    HeadRanked(o);
    TailRanked(o);
    var h := [Token(Is, o.entity)] + StateTokens(o) + Optional(Assignee, o.assignee) + LabelTokens(o.labels);
    ConcatRanked(h, TailTokens(o), 3);
  }

  /** The query text as ListURLWithQuery builds it: every qualifier followed by
    * a space, then one trailing space removed. */
  function Spaced(ts: seq<string>): string
  {
    if ts == [] then "" else ts[0] + " " + Spaced(ts[1..])
  }

  function Texts(ts: seq<Token>): (r: seq<string>)
    ensures |r| == |ts|
    ensures forall i :: 0 <= i < |ts| ==> r[i] == ts[i].Text()
  {
    seq(|ts|, i requires 0 <= i < |ts| => ts[i].Text())
  }

  function SearchQuery(o: FilterOptions): string
  {
    TrimSuffix(Spaced(Texts(Tokens(o))), " ")
  }

  lemma {:induction false} SpacedIsJoin(ts: seq<string>)
    requires ts != []
    ensures Spaced(ts) == Join(ts, " ") + " "
  {
    if |ts| > 1 {
      SpacedIsJoin(ts[1..]);
    }
  }

  /** Removing one trailing space leaves exactly the qualifiers joined by single
    * spaces: the final value has no trailing space unless its last qualifier ends
    * in one. */
  lemma SearchQueryIsJoin(o: FilterOptions)
    ensures SearchQuery(o) == Join(Texts(Tokens(o)), " ")
  {
    var ts := Texts(Tokens(o));
    SpacedIsJoin(ts);
    assert HasSuffix(Spaced(ts), " ");
  }

  /** The query value begins with the entity qualifier. */
  lemma SearchQueryStart(o: FilterOptions)
    ensures HasPrefix(SearchQuery(o), "is:" + o.entity)
  {
    SearchQueryIsJoin(o);
    var ts := Texts(Tokens(o));
    assert ts[0] == "is:" + o.entity;
    JoinStartsWithFirst(ts, " ");
  }

  lemma JoinStartsWithFirst(ts: seq<string>, sep: string)
    requires ts != []
    ensures HasPrefix(Join(ts, sep), ts[0])
  {
    if |ts| > 1 {
      assert Join(ts, sep) == ts[0] + (sep + Join(ts[1..], sep));
    }
  }

  /** A parsed URL query: each key holds a list of values. */
  type Query = map<string, seq<string>>

  /** url.Values.Set: the key holds exactly the one value. */
  function Set(q: Query, key: string, v: string): Query
  {
    q[key := [v]]
  }

  /** ListURLWithQuery on an already-parsed URL: the parse failure is passed on,
    * otherwise only "q" is replaced, by the assembled search query. */
  function ListURLWithQuery(parsed: Result<Query, string>, o: FilterOptions): (r: Result<Query, string>)
    ensures parsed.Err? <==> r.Err?
    ensures parsed.Err? ==> r.error == parsed.error
    ensures r.Ok? ==> "q" in r.value && r.value["q"] == [Join(Texts(Tokens(o)), " ")]
    ensures r.Ok? ==> forall k :: k != "q" ==> (k in r.value <==> k in parsed.value)
    ensures r.Ok? ==> forall k :: k != "q" && k in r.value ==> r.value[k] == parsed.value[k]
  {
    match parsed
    case Err(e) => Err(e)
    case Ok(q) =>
      SearchQueryIsJoin(o);
      Ok(Set(q, "q", SearchQuery(o)))
  }

  // ---------------------------------------------------------------------------
  // WithPrAndIssueQueryParams
  // ---------------------------------------------------------------------------

  /** The values gathered for a new issue or pull request. */
  datatype IssueMetadataState = IssueMetadataState(
    title: string, body: string, assignees: seq<string>, labels: seq<string>,
    projects: seq<string>, milestones: seq<string>, reviewers: seq<string>)

  /** A key the browser URL sets for a value that is present, and leaves as
    * parsed otherwise. */
  predicate Carries(q: Query, r: Query, key: string, v: Option<string>)
  {
    match v
    case Some(x) => key in r && r[key] == [x]
    case None => (key in r <==> key in q) && (key in q ==> r[key] == q[key])
  }

  function NonEmpty(v: string): Option<string>
  {
    if v == "" then None else Some(v)
  }

  /** A list is sent joined by commas, and only when it is non-empty. */
  function JoinedList(vs: seq<string>): Option<string>
  {
    if |vs| > 0 then Some(Join(vs, ",")) else None
  }

  function FirstOf(vs: seq<string>): Option<string>
  {
    if |vs| > 0 then Some(vs[0]) else None
  }

  const BrowserKeys: set<string> := {"title", "body", "assignees", "labels", "projects", "milestone"}

  function SetPresent(q: Query, key: string, v: Option<string>): (r: Query)
    ensures Carries(q, r, key, v)
    ensures SameOutside(q, r, {key})
  {
    match v
    case Some(x) => Set(q, key, x)
    case None => q
  }

  /** `r` holds the same keys and values as `q` outside `keys`. */
  ghost predicate SameOutside(q: Query, r: Query, keys: set<string>)
  {
    forall k :: k !in keys ==> (k in r <==> k in q) && (k in r ==> r[k] == q[k])
  }

  function Keys(kvs: seq<(string, Option<string>)>): set<string>
  {
    set i | 0 <= i < |kvs| :: kvs[i].0
  }

  /** SetPresent for each pair in turn, the keys being distinct. */
  function SetEach(q: Query, kvs: seq<(string, Option<string>)>): (r: Query)
    requires forall i, j :: 0 <= i < j < |kvs| ==> kvs[i].0 != kvs[j].0
    ensures forall i :: 0 <= i < |kvs| ==> Carries(q, r, kvs[i].0, kvs[i].1)
    ensures SameOutside(q, r, Keys(kvs))
    decreases |kvs|
  {
    if |kvs| == 0 then q
    else
      var q1 := SetPresent(q, kvs[0].0, kvs[0].1);
      var r := SetEach(q1, kvs[1..]);
      assert Keys(kvs) == {kvs[0].0} + Keys(kvs[1..]) by {
        forall i | 0 <= i < |kvs[1..]|
          ensures kvs[1..][i].0 == kvs[i + 1].0
        {
        }
      }
      assert kvs[0].0 !in Keys(kvs[1..]);
      assert forall i :: 1 <= i < |kvs| ==> kvs[1..][i - 1] == kvs[i];
      r
  }

  /** The values the browser URL carries, under their keys. */
  function BrowserValues(s: IssueMetadataState): (kvs: seq<(string, Option<string>)>)
    ensures forall i, j :: 0 <= i < j < |kvs| ==> kvs[i].0 != kvs[j].0
    ensures Keys(kvs) == BrowserKeys
  {
    var kvs := [("title", NonEmpty(s.title)), ("body", NonEmpty(s.body)),
      ("assignees", JoinedList(s.assignees)), ("labels", JoinedList(s.labels)),
      ("projects", JoinedList(s.projects)), ("milestone", FirstOf(s.milestones))];
    assert kvs[0].0 in Keys(kvs) && kvs[1].0 in Keys(kvs) && kvs[2].0 in Keys(kvs);
    assert kvs[3].0 in Keys(kvs) && kvs[4].0 in Keys(kvs) && kvs[5].0 in Keys(kvs);
    kvs
  }

  /** WithPrAndIssueQueryParams on an already-parsed URL: each present value is
    * set under its key, lists joined by ",", only the first milestone; every
    * other key of the URL is kept. */
  function WithPrAndIssueQueryParams(parsed: Result<Query, string>, s: IssueMetadataState): (r: Result<Query, string>)
    ensures parsed.Err? <==> r.Err?
    ensures parsed.Err? ==> r.error == parsed.error
    ensures r.Ok? ==> Carries(parsed.value, r.value, "title", NonEmpty(s.title))
    ensures r.Ok? ==> Carries(parsed.value, r.value, "body", NonEmpty(s.body))
    ensures r.Ok? ==> Carries(parsed.value, r.value, "assignees", JoinedList(s.assignees))
    ensures r.Ok? ==> Carries(parsed.value, r.value, "labels", JoinedList(s.labels))
    ensures r.Ok? ==> Carries(parsed.value, r.value, "projects", JoinedList(s.projects))
    ensures r.Ok? ==> Carries(parsed.value, r.value, "milestone", FirstOf(s.milestones))
    ensures r.Ok? ==> forall k :: k !in BrowserKeys ==>
      (k in r.value <==> k in parsed.value) && (k in r.value ==> r.value[k] == parsed.value[k])
  {
    match parsed
    case Err(e) => Err(e)
    case Ok(q) =>
      var kvs := BrowserValues(s);
      var r := SetEach(q, kvs);
      assert kvs[0].0 == "title" && kvs[1].0 == "body" && kvs[2].0 == "assignees";
      assert kvs[3].0 == "labels" && kvs[4].0 == "projects" && kvs[5].0 == "milestone";
      Ok(r)
  }

  /** A list sent in the URL can be read back by splitting on commas, as long as
    * no entry holds a comma itself. */
  lemma JoinedListRecoverable(vs: seq<string>)
    requires |vs| > 0
    requires forall i :: 0 <= i < |vs| ==> ',' !in vs[i]
    ensures Split(JoinedList(vs).value, ',') == vs
  {
    SplitJoin(vs, ',');
  }

  // ---------------------------------------------------------------------------
  // Reviewers and "@me"
  // ---------------------------------------------------------------------------

  /** A reviewer written `org/team` names a team. */
  predicate IsTeam(reviewer: string)
  {
    '/' in reviewer
  }

  /** The team reviewers, in input order. */
  function Teams(rs: seq<string>): seq<string>
  {
    if rs == [] then []
    else Teams(rs[..|rs| - 1]) + (if IsTeam(rs[|rs| - 1]) then [rs[|rs| - 1]] else [])
  }

  /** The user reviewers, in input order. */
  function Users(rs: seq<string>): seq<string>
  {
    if rs == [] then []
    else Users(rs[..|rs| - 1]) + (if IsTeam(rs[|rs| - 1]) then [] else [rs[|rs| - 1]])
  }

  /** Each list holds only its own kind of reviewer. */
  lemma {:induction false} PartitionKinds(rs: seq<string>)
    ensures forall i :: 0 <= i < |Teams(rs)| ==> IsTeam(Teams(rs)[i])
    ensures forall i :: 0 <= i < |Users(rs)| ==> !IsTeam(Users(rs)[i])
  {
    if rs != [] {
      PartitionKinds(rs[..|rs| - 1]);
    }
  }

  /** Every reviewer lands in exactly one of the two lists. */
  lemma {:induction false} PartitionComplete(rs: seq<string>)
    ensures multiset(Users(rs)) + multiset(Teams(rs)) == multiset(rs)
  {
    if rs != [] {
      var init := rs[..|rs| - 1];
      var last := rs[|rs| - 1];
      PartitionComplete(init);
      assert rs == init + [last];
      assert multiset(rs) == multiset(init) + multiset{last};
      if IsTeam(last) {
        assert Teams(rs) == Teams(init) + [last];
        assert multiset(Teams(rs)) == multiset(Teams(init)) + multiset{last};
        assert Users(rs) == Users(init);
      } else {
        assert Users(rs) == Users(init) + [last];
        assert multiset(Users(rs)) == multiset(Users(init)) + multiset{last};
        assert Teams(rs) == Teams(init);
      }
    }
  }

  /** The loop of AddMetadataToIssueParams that sorts reviewers into users and
    * teams. */
  method SplitReviewers(reviewers: seq<string>) returns (users: seq<string>, teams: seq<string>)
    ensures users == Users(reviewers) && teams == Teams(reviewers)
    ensures forall i :: 0 <= i < |teams| ==> IsTeam(teams[i])
    ensures forall i :: 0 <= i < |users| ==> !IsTeam(users[i])
    ensures multiset(users) + multiset(teams) == multiset(reviewers)
  {
    users, teams := [], [];
    var i := 0;
    while i < |reviewers|
      invariant 0 <= i <= |reviewers|
      invariant users == Users(reviewers[..i]) && teams == Teams(reviewers[..i])
    {
      var r := reviewers[i];
      assert reviewers[..i + 1][..i] == reviewers[..i];
      if IsTeam(r) {
        teams := teams + [r];
      } else {
        users := users + [r];
      }
      i := i + 1;
    }
    assert reviewers[..i] == reviewers;
    PartitionKinds(reviewers);
    PartitionComplete(reviewers);
  }

  /** strings.EqualFold(u, "@me"): no other characters fold to 'm' or 'e'. */
  predicate IsAtMe(u: string)
  {
    |u| == 3 && u[0] == '@' && (u[1] == 'm' || u[1] == 'M') && (u[2] == 'e' || u[2] == 'E')
  }

  const AtMeError: string := "@me resolve: failed obtaining user id: "

  /** ReplaceAtMeLogin, with the current login looked up once: a failed lookup
    * matters only when some entry is "@me". */
  function ReplaceAtMeLogin(logins: seq<string>, me: Result<string, string>): (r: Result<seq<string>, string>)
    ensures r.Err? <==> me.Err? && exists i :: 0 <= i < |logins| && IsAtMe(logins[i])
    ensures r.Err? ==> r.error == AtMeError + me.error
    ensures r.Ok? ==> |r.value| == |logins|
    ensures r.Ok? ==> forall i :: 0 <= i < |logins| ==>
      r.value[i] == if IsAtMe(logins[i]) then me.value else logins[i]
  {
    if logins == [] then Ok([])
    else if IsAtMe(logins[0]) && me.Err? then Err(AtMeError + me.error)
    else
      var head := if IsAtMe(logins[0]) then me.value else logins[0];
      match ReplaceAtMeLogin(logins[1..], me)
      case Err(e) =>
        assert exists i :: 0 <= i < |logins| && IsAtMe(logins[i]) by {
          var i :| 0 <= i < |logins[1..]| && IsAtMe(logins[1..][i]);
          assert IsAtMe(logins[i + 1]);
        }
        Err(e)
      case Ok(rest) =>
        assert forall i :: 1 <= i < |logins| ==> logins[i] == logins[1..][i - 1];
        Ok([head] + rest)
  }

  /** Once the login is known and is not itself "@me", no "@me" is left. */
  lemma ReplaceAtMeLeavesNone(logins: seq<string>, me: Result<string, string>)
    requires me.Ok? && !IsAtMe(me.value)
    ensures ReplaceAtMeLogin(logins, me).Ok?
    ensures forall i :: 0 <= i < |logins| ==> !IsAtMe(ReplaceAtMeLogin(logins, me).value[i])
  {
  }

  // ---------------------------------------------------------------------------
  // AddMetadataToIssueParams
  // ---------------------------------------------------------------------------

  /** A GraphQL mutation input value: a list of node IDs or a single one. */
  datatype ParamValue = Ids(ids: seq<string>) | Id(id: string)

  type Params = map<string, ParamValue>

  /** The answers of the code this operation calls but which is not part of the
    * model: whether the state holds metadata, the current login, the metadata
    * prefetch, and the name-to-ID lookups. */
  datatype Lookups = Lookups(
    hasMetadata: bool,
    me: Result<string, string>,
    fillError: Option<string>,
    members: seq<string> -> Result<seq<string>, string>,
    labels: seq<string> -> Result<seq<string>, string>,
    projects: seq<string> -> Result<seq<string>, string>,
    teams: seq<string> -> Result<seq<string>, string>,
    milestone: string -> Result<string, string>)

  const MetadataKeys: set<string> :=
    {"assigneeIds", "labelIds", "projectIds", "milestoneId", "userReviewerIds", "teamReviewerIds"}

  /** fmt.Errorf("<prefix>%w", err) on a lookup failure. */
  function Wrap<T>(prefix: string, r: Result<T, string>): (w: Result<T, string>)
    ensures r.Ok? <==> w.Ok?
    ensures w.Ok? ==> w.value == r.value
    ensures w.Err? ==> w.error == prefix + r.error
  {
    match r
    case Ok(v) => Ok(v)
    case Err(e) => Err(prefix + e)
  }

  predicate Keeps(params: Params, r: Params, k: string)
  {
    (k in r <==> k in params) && (k in r ==> r[k] == params[k])
  }

  /** The three list IDs set; every other key kept. */
  function SetIds(params: Params, assigneeIds: seq<string>, labelIds: seq<string>, projectIds: seq<string>): (p: Params)
    ensures "assigneeIds" in p && p["assigneeIds"] == Ids(assigneeIds)
    ensures "labelIds" in p && p["labelIds"] == Ids(labelIds)
    ensures "projectIds" in p && p["projectIds"] == Ids(projectIds)
    ensures forall k :: k !in {"assigneeIds", "labelIds", "projectIds"} ==> Keeps(params, p, k)
  {
    params["assigneeIds" := Ids(assigneeIds)]["labelIds" := Ids(labelIds)]["projectIds" := Ids(projectIds)]
  }

  function AddMilestone(p: Params, milestones: seq<string>, lk: Lookups): (r: Result<Params, string>)
    ensures |milestones| == 0 ==> r == Ok(p)
    ensures |milestones| > 0 ==> (r.Ok? <==> lk.milestone(milestones[0]).Ok?)
    ensures r.Ok? && |milestones| > 0 ==>
      "milestoneId" in r.value && r.value["milestoneId"] == Id(lk.milestone(milestones[0]).value)
    ensures r.Ok? ==> forall k :: k != "milestoneId" ==> Keeps(p, r.value, k)
  {
    if |milestones| == 0 then Ok(p)
    else
      match lk.milestone(milestones[0])
      case Err(e) => Err("could not add to milestone '" + milestones[0] + "': " + e)
      case Ok(id) => Ok(p["milestoneId" := Id(id)])
  }

  function AddReviewers(p: Params, reviewers: seq<string>, lk: Lookups): (r: Result<Params, string>)
    ensures |reviewers| == 0 ==> r == Ok(p)
    ensures |reviewers| > 0 ==>
      (r.Ok? <==> lk.members(Users(reviewers)).Ok? && lk.teams(Teams(reviewers)).Ok?)
    ensures r.Ok? && |reviewers| > 0 ==>
      && "userReviewerIds" in r.value && r.value["userReviewerIds"] == Ids(lk.members(Users(reviewers)).value)
      && "teamReviewerIds" in r.value && r.value["teamReviewerIds"] == Ids(lk.teams(Teams(reviewers)).value)
    ensures r.Ok? ==> forall k :: k !in {"userReviewerIds", "teamReviewerIds"} ==> Keeps(p, r.value, k)
  {
    if |reviewers| == 0 then Ok(p)
    else
      var userIds :- Wrap("could not request reviewer: ", lk.members(Users(reviewers)));
      var teamIds :- Wrap("could not request reviewer: ", lk.teams(Teams(reviewers)));
      Ok(p["userReviewerIds" := Ids(userIds)]["teamReviewerIds" := Ids(teamIds)])
  }

  /** AddMetadataToIssueParams after "@me" is resolved to `assignees`. */
  function ResolveIds(params: Params, assignees: seq<string>, tb: IssueMetadataState, lk: Lookups): (r: Result<Params, string>)
    ensures r.Ok? ==> forall k :: k !in MetadataKeys ==> Keeps(params, r.value, k)
    ensures r.Ok? ==>
      && lk.fillError.None? && lk.members(assignees).Ok?
      && lk.labels(tb.labels).Ok? && lk.projects(tb.projects).Ok?
      && "assigneeIds" in r.value && "labelIds" in r.value && "projectIds" in r.value
      && r.value["assigneeIds"] == Ids(lk.members(assignees).value)
      && r.value["labelIds"] == Ids(lk.labels(tb.labels).value)
      && r.value["projectIds"] == Ids(lk.projects(tb.projects).value)
    ensures r.Ok? && |tb.reviewers| > 0 ==>
      && lk.members(Users(tb.reviewers)).Ok? && lk.teams(Teams(tb.reviewers)).Ok?
      && "userReviewerIds" in r.value && "teamReviewerIds" in r.value
      && r.value["userReviewerIds"] == Ids(lk.members(Users(tb.reviewers)).value)
      && r.value["teamReviewerIds"] == Ids(lk.teams(Teams(tb.reviewers)).value)
    ensures r.Ok? && |tb.reviewers| == 0 ==>
      Keeps(params, r.value, "userReviewerIds") && Keeps(params, r.value, "teamReviewerIds")
    ensures r.Ok? && |tb.milestones| > 0 ==>
      && lk.milestone(tb.milestones[0]).Ok? && "milestoneId" in r.value
      && r.value["milestoneId"] == Id(lk.milestone(tb.milestones[0]).value)
    ensures r.Ok? && |tb.milestones| == 0 ==> Keeps(params, r.value, "milestoneId")
    ensures lk.fillError.None? && lk.members(assignees).Ok? && lk.labels(tb.labels).Err? ==>
      r == Err("could not add label: " + lk.labels(tb.labels).error)
  {
    if lk.fillError.Some? then Err(lk.fillError.value)
    else
      var assigneeIds :- Wrap("could not assign user: ", lk.members(assignees));
      var labelIds :- Wrap("could not add label: ", lk.labels(tb.labels));
      var projectIds :- Wrap("could not add to project: ", lk.projects(tb.projects));
      var p := SetIds(params, assigneeIds, labelIds, projectIds);
      var p2 :- AddMilestone(p, tb.milestones, lk);
      AddReviewers(p2, tb.reviewers, lk)
  }

  /** AddMetadataToIssueParams: "@me" is resolved first, then assignees, labels,
    * projects, the first milestone and the reviewers, split into users and
    * teams, are turned into IDs; the first failure ends the operation. */
  function AddMetadataToIssueParams(params: Params, tb: IssueMetadataState, lk: Lookups): (r: Result<Params, string>)
    ensures !lk.hasMetadata ==> r == Ok(params)
    ensures lk.hasMetadata && ReplaceAtMeLogin(tb.assignees, lk.me).Err? ==>
      r == Err(AtMeError + lk.me.error)
    ensures r.Ok? ==> forall k :: k !in MetadataKeys ==> Keeps(params, r.value, k)
    ensures r.Ok? && lk.hasMetadata ==>
      && ReplaceAtMeLogin(tb.assignees, lk.me).Ok? && lk.fillError.None?
      && lk.members(ReplaceAtMeLogin(tb.assignees, lk.me).value).Ok?
      && lk.labels(tb.labels).Ok? && lk.projects(tb.projects).Ok?
      && "assigneeIds" in r.value && "labelIds" in r.value && "projectIds" in r.value
    ensures r.Ok? && lk.hasMetadata && |tb.reviewers| > 0 ==>
      && lk.members(Users(tb.reviewers)).Ok? && lk.teams(Teams(tb.reviewers)).Ok?
      && "userReviewerIds" in r.value && "teamReviewerIds" in r.value
    ensures r.Ok? && lk.hasMetadata ==>
      && r.value["assigneeIds"] == Ids(lk.members(ReplaceAtMeLogin(tb.assignees, lk.me).value).value)
      && r.value["labelIds"] == Ids(lk.labels(tb.labels).value)
      && r.value["projectIds"] == Ids(lk.projects(tb.projects).value)
    ensures r.Ok? && lk.hasMetadata && |tb.milestones| > 0 ==>
      lk.milestone(tb.milestones[0]).Ok? && "milestoneId" in r.value
    ensures r.Ok? && lk.hasMetadata && |tb.milestones| > 0 ==>
      r.value["milestoneId"] == Id(lk.milestone(tb.milestones[0]).value)
    ensures r.Ok? && lk.hasMetadata && |tb.milestones| == 0 ==> Keeps(params, r.value, "milestoneId")
    ensures r.Ok? && lk.hasMetadata && |tb.reviewers| > 0 ==>
      && r.value["userReviewerIds"] == Ids(lk.members(Users(tb.reviewers)).value)
      && r.value["teamReviewerIds"] == Ids(lk.teams(Teams(tb.reviewers)).value)
    ensures r.Ok? && lk.hasMetadata && |tb.reviewers| == 0 ==>
      Keeps(params, r.value, "userReviewerIds") && Keeps(params, r.value, "teamReviewerIds")
    ensures r.Err? ==> lk.hasMetadata
  {
    if !lk.hasMetadata then Ok(params)
    else
      var assignees :- ReplaceAtMeLogin(tb.assignees, lk.me);
      ResolveIds(params, assignees, tb, lk)
  }

  /** A failing lookup is reported with the prefix of its step, once every
    * earlier step has succeeded. */
  lemma LabelFailureReported(params: Params, tb: IssueMetadataState, lk: Lookups)
    requires lk.hasMetadata && ReplaceAtMeLogin(tb.assignees, lk.me).Ok? && lk.fillError.None?
    requires lk.members(ReplaceAtMeLogin(tb.assignees, lk.me).value).Ok?
    requires lk.labels(tb.labels).Err?
    ensures AddMetadataToIssueParams(params, tb, lk) == Err("could not add label: " + lk.labels(tb.labels).error)
  {
  }
}
