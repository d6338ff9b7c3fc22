/** The key a client address is limited under. The parser of IPv6 literals is proved against the text forms
    of section 2.2 of RFC 4291, and the key against the addresses those texts stand for. */
module ClientRateKey {
  import opened Wrappers
  import opened Text

  const IPV4_MAPPED_GROUP := 0xffff
  const IPV6_PREFIX_GROUPS := 4

  // ---- The text forms of an address ----

  /** Four decimal bytes, written with dots between them. */
  datatype Quad = Quad(a: nat, b: nat, c: nat, d: nat)

  predicate IsQuad(q: Quad) {
    q.a < 256 && q.b < 256 && q.c < 256 && q.d < 256
  }

  function QuadParts(q: Quad): seq<string> {
    [Digits(q.a, 10), Digits(q.b, 10), Digits(q.c, 10), Digits(q.d, 10)]
  }

  function QuadText(q: Quad): string {
    Join(QuadParts(q), '.')
  }

  /** Groups of one to four hexadecimal digits in either case, the last two of them possibly as four
      decimal bytes; in an elided form `::` stands between head and tail for one zero group or more. */
  datatype Form =
    | Plain(groups: seq<string>, dotted: Option<Quad>)
    | Elided(head: seq<string>, groups: seq<string>, dotted: Option<Quad>)

  /** One to four hexadecimal digits in either case. */
  predicate IsGroup(s: string) {
    1 <= |s| <= 4 && forall i :: 0 <= i < |s| ==> '0' <= s[i] <= '9' || 'a' <= s[i] <= 'f' || 'A' <= s[i] <= 'F'
  }

  ghost predicate AllGroups(groups: seq<string>) {
    forall i :: 0 <= i < |groups| ==> IsGroup(groups[i])
  }

  lemma GroupsAreDigits(groups: seq<string>)
    requires AllGroups(groups)
    ensures forall i :: 0 <= i < |groups| ==> AreDigits(groups[i], 16)
  {
    forall i | 0 <= i < |groups| ensures AreDigits(groups[i], 16) {
      assert IsGroup(groups[i]);
    }
  }

  function Width(dotted: Option<Quad>): nat {
    if dotted.Some? then 2 else 0
  }

  ghost predicate Valid(form: Form) {
    && AllGroups(form.groups)
    && (form.dotted.Some? ==> IsQuad(form.dotted.value))
    && match form
       case Plain(groups, dotted) => |groups| + Width(dotted) == 8
       case Elided(head, tail, dotted) => AllGroups(head) && |head| + |tail| + Width(dotted) <= 7
  }

  function WithQuad(groups: seq<string>, dotted: Option<Quad>): seq<string> {
    if dotted.Some? then groups + [QuadText(dotted.value)] else groups
  }

  function Write(form: Form): string {
    match form
    case Plain(groups, dotted) => Join(WithQuad(groups, dotted), ':')
    case Elided(head, tail, dotted) => Join(head, ':') + ("::" + Join(WithQuad(tail, dotted), ':'))
  }

  function Values(groups: seq<string>): seq<nat> {
    seq(|groups|, i requires 0 <= i < |groups| => Parse(groups[i], 16))
  }

  function Zeros(n: nat): seq<string> {
    seq(n, i => "0")
  }

  function QuadValues(dotted: Option<Quad>): seq<nat> {
    if dotted.Some? then [dotted.value.a * 256 + dotted.value.b, dotted.value.c * 256 + dotted.value.d] else []
  }

  /** The eight numbers a form stands for. */
  ghost function Value(form: Form): seq<nat>
    requires Valid(form)
  {
    match form
    case Plain(groups, dotted) => Values(groups) + QuadValues(dotted)
    case Elided(head, tail, dotted) =>
      Values(head) + seq(8 - |head| - |tail| - Width(dotted), i => 0) + Values(tail) + QuadValues(dotted)
  }

  // ---- The parser ----

  /** What the pattern of four decimal numbers at the end of a text matches, taken as the whole of it. */
  predicate IsDottedTail(s: string) {
    var parts := Split(s, ".");
    && |parts| == 4
    && AreDigits(parts[0], 10) && |parts[0]| <= 3
    && AreDigits(parts[1], 10) && |parts[1]| <= 3
    && AreDigits(parts[2], 10) && |parts[2]| <= 3
    && AreDigits(parts[3], 10) && |parts[3]| <= 3
  }

  function Converted(s: string): string
    requires IsDottedTail(s)
  {
    var parts := Split(s, ".");
    var high, low := Parse(parts[0], 10) * 256 + Parse(parts[1], 10), Parse(parts[2], 10) * 256 + Parse(parts[3], 10);
    Join([Digits(high, 16), Digits(low, 16)], ':')
  }

  /** The leftmost dotted tail becomes two hexadecimal groups. */
  function HexTail(s: string): string {
    if IsDottedTail(s) then Converted(s) else if s == "" then "" else [s[0]] + HexTail(s[1..])
  }

  function Side(text: string): seq<string> {
    if text == "" then [] else Split(text, ":")
  }

  /** The groups, or nothing where the zeros would be fewer than none or a group is no number. */
  function GroupsOf(hexTail: string): Option<seq<nat>> {
    var sides := Split(hexTail, "::");
    var head, tail := Side(sides[0]), if |sides| > 1 then Side(sides[1]) else [];
    var zeros := if |sides| > 1 then 8 - |head| - |tail| else 0;
    if zeros < 0 then None else
      var groups := head + Zeros(zeros) + tail;
      if forall i :: 0 <= i < |groups| ==> AreDigits(groups[i], 16) then Some(Values(groups)) else None
  }

  function Ipv6Groups(address: string): Option<seq<nat>> {
    GroupsOf(HexTail(address))
  }

  // ---- Reading back ----

  lemma {:induction false} HexTailWithoutDots(s: string)
    requires '.' !in s
    ensures HexTail(s) == s
  {
    ClearWithout(s, "", ".");
    SplitNowhere(s, ".");
    if s != "" {
      HexTailWithoutDots(s[1..]);
    }
  }

  lemma ColonsAreNotDotted(s: string)
    requires ':' in s
    ensures !IsDottedTail(s)
  {
    SplitKeeps(s, ".", ':');
    var parts := Split(s, ".");
    var i :| 0 <= i < |parts| && ':' in parts[i];
    var k :| 0 <= k < |parts[i]| && parts[i][k] == ':';
    assert DigitValue(parts[i][k]) == 16;
  }

  /** The two groups a quad stands for. */
  function QuadGroups(q: Quad): seq<string> {
    [Digits(q.a * 256 + q.b, 16), Digits(q.c * 256 + q.d, 16)]
  }

  lemma QuadReadsBack(q: Quad)
    requires IsQuad(q)
    ensures Split(QuadText(q), ".") == QuadParts(q) && IsDottedTail(QuadText(q))
    ensures Converted(QuadText(q)) == Join(QuadGroups(q), ':')
  {
    DecimalReadsBack(q.a);
    DecimalReadsBack(q.b);
    DecimalReadsBack(q.c);
    DecimalReadsBack(q.d);
    JoinSplitsBack(QuadParts(q), '.');
  }

  lemma DecimalReadsBack(n: nat)
    requires n < 256
    ensures AreDigits(Digits(n, 10), 10) && |Digits(n, 10)| <= 3 && Parse(Digits(n, 10), 10) == n
    ensures '.' !in Digits(n, 10) && ':' !in Digits(n, 10) && '%' !in Digits(n, 10)
  {
    DigitsParseBack(n, 10);
    DecimalIsShort(n);
    NoPunctuation(Digits(n, 10), 10);
  }

  lemma NoPunctuation(s: string, base: nat)
    requires base <= 16 && AreDigits(s, base)
    ensures '.' !in s && ':' !in s && '%' !in s && '/' !in s
  {
    assert DigitValue('.') == 16 && DigitValue(':') == 16 && DigitValue('%') == 16 && DigitValue('/') == 16;
  }

  lemma HexTailSkips(s: string)
    requires ':' in s
    ensures HexTail(s) == [s[0]] + HexTail(s[1..])
  {
    ColonsAreNotDotted(s);
  }

  lemma {:induction false} HexTailAfter(prefix: string, dotted: string)
    requires IsDottedTail(dotted) && (prefix == "" || prefix[|prefix| - 1] == ':')
    ensures HexTail(prefix + dotted) == prefix + Converted(dotted)
  {
    if prefix == "" {
      assert prefix + dotted == dotted;
    } else {
      var s := prefix + dotted;
      assert s[|prefix| - 1] == ':';
      HexTailSkips(s);
      assert s[1..] == prefix[1..] + dotted;
      HexTailAfter(prefix[1..], dotted);
      assert [prefix[0]] + (prefix[1..] + Converted(dotted)) == prefix + Converted(dotted);
    }
  }

  /** What is written before the last group of a side. */
  function Lead(groups: seq<string>): string {
    if groups == [] then "" else Join(groups, ':') + ":"
  }

  lemma JoinAfterLead(groups: seq<string>, last: seq<string>)
    requires last != []
    ensures Join(groups + last, ':') == Lead(groups) + Join(last, ':')
  {
    if groups == [] {
      assert groups + last == last;
    } else {
      JoinConcatenated(groups, last, ':');
    }
  }

  /** The same address with its dotted tail written as two groups. */
  function Undotted(form: Form): Form {
    if form.dotted.None? then form
    else form.(groups := form.groups + QuadGroups(form.dotted.value), dotted := None)
  }

  lemma QuadGroupsReadBack(q: Quad)
    requires IsQuad(q)
    ensures AllGroups(QuadGroups(q)) && Values(QuadGroups(q)) == QuadValues(Some(q))
  {
    TwoGroupsReadBack(q.a * 256 + q.b, q.c * 256 + q.d);
  }

  lemma TwoGroupsReadBack(high: nat, low: nat)
    requires high < 0x1_0000 && low < 0x1_0000
    ensures AllGroups([Digits(high, 16), Digits(low, 16)]) && Values([Digits(high, 16), Digits(low, 16)]) == [high, low]
  {
    HexGroupReadsBack(high);
    HexGroupReadsBack(low);
    PairValues(Digits(high, 16), Digits(low, 16));
  }

  lemma PairValues(high: string, low: string)
    requires IsGroup(high) && IsGroup(low)
    ensures AllGroups([high, low]) && Values([high, low]) == [Parse(high, 16), Parse(low, 16)]
  {
  }

  lemma HexGroupReadsBack(n: nat)
    requires n < 0x1_0000
    ensures IsGroup(Digits(n, 16)) && Parse(Digits(n, 16), 16) == n
  {
    DigitsParseBack(n, 16);
    HexIsShort(n);
  }

  lemma ValuesTogether(front: seq<string>, back: seq<string>)
    ensures Values(front + back) == Values(front) + Values(back)
    ensures AllGroups(front) && AllGroups(back) ==> AllGroups(front + back)
  {
  }

  lemma UndottedStandsForTheSame(form: Form)
    requires Valid(form)
    ensures Valid(Undotted(form)) && Undotted(form).dotted.None?
    ensures Value(Undotted(form)) == Value(form)
  {
    if form.dotted.Some? {
      var last, values := QuadGroups(form.dotted.value), QuadValues(form.dotted);
      QuadGroupsReadBack(form.dotted.value);
      ValuesTogether(form.groups, last);
      assert |last| == 2;
      if form.Elided? {
        var front := Values(form.head) + seq(8 - |form.head| - |form.groups| - 2, i => 0);
        assert front + (Values(form.groups) + values) + [] == front + Values(form.groups) + values;
      } else {
        assert Values(form.groups) + values + [] == Values(form.groups) + values;
      }
    }
  }

  lemma GroupsHoldNo(groups: seq<string>)
    requires AllGroups(groups)
    ensures NoneHolds(groups, '.') && NoneHolds(groups, ':') && NoneHolds(groups, '%') && NoneHolds(groups, '/')
  {
    forall i | 0 <= i < |groups|
      ensures '.' !in groups[i] && ':' !in groups[i] && '%' !in groups[i] && '/' !in groups[i]
    {
      NoPunctuation(groups[i], 16);
    }
  }

  /** All of a written form before its dotted tail. */
  function Before(form: Form): string {
    match form
    case Plain(groups, _) => Lead(groups)
    case Elided(head, tail, _) => Join(head, ':') + ("::" + Lead(tail))
  }

  lemma SameText(front: string, lead: string, last: string)
    ensures front + ("::" + (lead + last)) == front + ("::" + lead) + last
  {
  }

  lemma LeadEndsInColon(groups: seq<string>)
    ensures Lead(groups) == "" || Lead(groups)[|Lead(groups)| - 1] == ':'
  {
  }

  lemma BeforeEndsInColon(form: Form)
    ensures Before(form) == "" || Before(form)[|Before(form)| - 1] == ':'
  {
    LeadEndsInColon(form.groups);
  }

  lemma WrittenWithQuad(form: Form)
    requires form.dotted.Some?
    ensures Write(form) == Before(form) + QuadText(form.dotted.value)
    ensures Write(Undotted(form)) == Before(form) + Join(QuadGroups(form.dotted.value), ':')
    ensures Before(form) == "" || Before(form)[|Before(form)| - 1] == ':'
  {
    var q := form.dotted.value;
    JoinAfterLead(form.groups, [QuadText(q)]);
    JoinAfterLead(form.groups, QuadGroups(q));
    if form.Elided? {
      SameText(Join(form.head, ':'), Lead(form.groups), QuadText(q));
      SameText(Join(form.head, ':'), Lead(form.groups), Join(QuadGroups(q), ':'));
    }
    BeforeEndsInColon(form);
  }

  lemma WrittenWithoutDots(form: Form)
    requires Valid(form) && form.dotted.None?
    ensures '.' !in Write(form)
  {
    GroupsHoldNo(form.groups);
    JoinHolds(form.groups, ':', '.');
    if form.Elided? {
      GroupsHoldNo(form.head);
      JoinHolds(form.head, ':', '.');
    }
  }

  lemma QuadBecomesGroups(before: string, q: Quad, text: string, undotted: string)
    requires IsQuad(q) && (before == "" || before[|before| - 1] == ':')
    requires text == before + QuadText(q) && undotted == before + Join(QuadGroups(q), ':')
    ensures HexTail(text) == undotted
  {
    QuadReadsBack(q);
    HexTailAfter(before, QuadText(q));
  }

  /** The parser's first step writes the form without its dotted tail. */
  lemma HexTailUndots(form: Form)
    requires Valid(form)
    ensures HexTail(Write(form)) == Write(Undotted(form))
  {
    if form.dotted.Some? {
      WrittenWithQuad(form);
      QuadBecomesGroups(Before(form), form.dotted.value, Write(form), Write(Undotted(form)));
    } else {
      WrittenWithoutDots(form);
      HexTailWithoutDots(Write(form));
    }
  }

  /** Groups joined with single colons hold no double one, whatever follows. */
  lemma {:induction false} JoinIsClear(groups: seq<string>, tail: string)
    requires AllGroups(groups)
    ensures Clear(Join(groups, ':'), tail, "::")
    decreases |groups|
  {
    if groups != [] {
      NoPunctuation(groups[0], 16);
      if |groups| == 1 {
        ClearWithout(groups[0], tail, "::");
      } else {
        var rest := Join(groups[1..], ':');
        JoinIsClear(groups[1..], tail);
        ClearWithout(groups[0], ":" + rest + tail, "::");
        NoPunctuation(groups[1], 16);
        assert rest[0] == groups[1][0];
        assert (":" + (rest + tail))[1] != ':';
        assert !Begins(":" + (rest + tail), "::");
        assert Clear(":"[1..], rest + tail, "::");
        assert Clear(":", rest + tail, "::");
        ClearTogether(":", rest, tail, "::");
        assert ":" + rest + tail == (":" + rest) + tail;
        ClearTogether(groups[0], ":" + rest, tail, "::");
        assert Join(groups, ':') == groups[0] + (":" + rest);
      }
    }
  }

  lemma SideReadsBack(groups: seq<string>)
    requires AllGroups(groups)
    ensures Side(Join(groups, ':')) == groups
    ensures Split(Join(groups, ':'), "::") == [Join(groups, ':')]
  {
    JoinIsClear(groups, "");
    SplitNowhere(Join(groups, ':'), "::");
    if groups != [] {
      GroupsHoldNo(groups);
      assert Join(groups, ':') != "";
      JoinSplitsBack(groups, ':');
    }
  }

  lemma PlainReadsBack(groups: seq<string>)
    requires AllGroups(groups)
    ensures GroupsOf(Join(groups, ':')) == Some(Values(groups))
  {
    SideReadsBack(groups);
    GroupsAreDigits(groups);
    assert groups + Zeros(0) + [] == groups;
  }

  lemma ElidedSides(head: seq<string>, tail: seq<string>)
    requires AllGroups(head) && AllGroups(tail)
    ensures Split(Join(head, ':') + ("::" + Join(tail, ':')), "::") == [Join(head, ':'), Join(tail, ':')]
  {
    JoinIsClear(head, "::" + Join(tail, ':'));
    SplitAtFirst(Join(head, ':'), "::", Join(tail, ':'));
    SideReadsBack(tail);
  }

  lemma TwoSidesReadBack(text: string, left: string, right: string, head: seq<string>, tail: seq<string>)
    requires Split(text, "::") == [left, right] && Side(left) == head && Side(right) == tail
    requires AllGroups(head) && AllGroups(tail) && |head| + |tail| <= 8
    ensures GroupsOf(text) == Some(Values(head) + seq(8 - |head| - |tail|, i => 0) + Values(tail))
  {
    var n := 8 - |head| - |tail|;
    GroupsAreDigits(head);
    GroupsAreDigits(tail);
    assert forall i :: 0 <= i < n ==> AreDigits(Zeros(n)[i], 16);
    ZerosAreZero(n);
    ValuesTogether(head, Zeros(n));
    ValuesTogether(head + Zeros(n), tail);
  }

  lemma ElidedReadsBack(head: seq<string>, tail: seq<string>)
    requires AllGroups(head) && AllGroups(tail) && |head| + |tail| <= 8
    ensures GroupsOf(Join(head, ':') + ("::" + Join(tail, ':')))
         == Some(Values(head) + seq(8 - |head| - |tail|, i => 0) + Values(tail))
  {
    ElidedSides(head, tail);
    SideReadsBack(head);
    SideReadsBack(tail);
    TwoSidesReadBack(Join(head, ':') + ("::" + Join(tail, ':')), Join(head, ':'), Join(tail, ':'), head, tail);
  }

  lemma UndottedReadsBack(form: Form)
    requires Valid(form) && form.dotted.None?
    ensures GroupsOf(Write(form)) == Some(Value(form))
  {
    match form
    case Plain(groups, _) =>
      PlainReadsBack(groups);
      assert Values(groups) + [] == Values(groups);
    case Elided(head, tail, _) =>
      ElidedReadsBack(head, tail);
      var value := Values(head) + seq(8 - |head| - |tail|, i => 0) + Values(tail);
      assert value + [] == value;
  }

  lemma ZerosAreZero(n: nat)
    ensures AllGroups(Zeros(n)) && Values(Zeros(n)) == seq(n, i => 0)
  {
    ParseAppend("", '0', 16);
    assert "" + ['0'] == "0";
  }

  /** Writing an address in any of its forms and parsing it gives its eight groups back. */
  lemma GroupsReadBack(form: Form)
    requires Valid(form)
    ensures Ipv6Groups(Write(form)) == Some(Value(form))
  {
    HexTailUndots(form);
    UndottedStandsForTheSame(form);
    UndottedReadsBack(Undotted(form));
  }

  // ---- The key ----

  ghost predicate AllHextets(groups: seq<nat>) {
    |groups| == 8 && forall i :: 0 <= i < 8 ==> groups[i] < 0x1_0000
  }

  /** An IPv4-mapped address: section 2.5.5.2 of RFC 4291. */
  predicate IsMapped(groups: seq<nat>)
    requires |groups| == 8
  {
    groups[5] == IPV4_MAPPED_GROUP && forall i :: 0 <= i < 5 ==> groups[i] == 0
  }

  /** The last two groups as four bytes. */
  function MappedQuad(groups: seq<nat>): Quad
    requires |groups| == 8
  {
    Quad(groups[6] / 256, groups[6] % 256, groups[7] / 256, groups[7] % 256)
  }

  function PrefixParts(groups: seq<nat>): seq<string>
    requires |groups| == 8
  {
    [Digits(groups[0], 16), Digits(groups[1], 16), Digits(groups[2], 16), Digits(groups[3], 16)]
  }

  function KeyOf(groups: seq<nat>): string
    requires |groups| == 8
  {
    if IsMapped(groups) then QuadText(MappedQuad(groups)) else Join(PrefixParts(groups), ':') + "::/64"
  }

  predicate NoLineBreak(s: string) {
    forall i :: 0 <= i < |s| ==> s[i] !in {'\n', '\r', '\U{2028}', '\U{2029}'}
  }

  /** Drops a zone: from the first `%` with no line break after it. */
  function StripZone(s: string): string {
    if s == "" then "" else if s[0] == '%' && NoLineBreak(s[1..]) then "" else [s[0]] + StripZone(s[1..])
  }

  /** What `isIP` calls an IPv6 literal, once the zone is gone: some written form. */
  ghost predicate IsIpv6(literal: string) {
    exists form :: Valid(form) && Write(form) == literal
  }

  ghost function ClientRateKey(address: string): string {
    var literal := StripZone(address);
    if IsIpv6(literal) then
      LiteralsRead(literal);
      KeyOf(Ipv6Groups(literal).value)
    else address
  }

  lemma {:induction false} ValuesAreHextets(groups: seq<string>)
    requires AllGroups(groups)
    ensures forall i :: 0 <= i < |groups| ==> Values(groups)[i] < 0x1_0000
  {
    forall i | 0 <= i < |groups| ensures Values(groups)[i] < 0x1_0000 {
      ShortHexIsSmall(groups[i]);
    }
  }

  lemma ValueIsEightHextets(form: Form)
    requires Valid(form)
    ensures AllHextets(Value(form))
  {
    ValuesAreHextets(form.groups);
    if form.Elided? {
      ValuesAreHextets(form.head);
    }
  }

  lemma LiteralsRead(literal: string)
    requires IsIpv6(literal)
    ensures Ipv6Groups(literal).Some? && AllHextets(Ipv6Groups(literal).value)
  {
    var form :| Valid(form) && Write(form) == literal;
    GroupsReadBack(form);
    ValueIsEightHextets(form);
  }

  // ---- Which literals share a key ----

  lemma QuadTextsDiffer(q: Quad, r: Quad)
    requires IsQuad(q) && IsQuad(r)
    ensures QuadText(q) == QuadText(r) ==> q == r
  {
    QuadReadsBack(q);
    QuadReadsBack(r);
    QuadPartsParse(q);
    QuadPartsParse(r);
  }

  lemma QuadPartsParse(q: Quad)
    requires IsQuad(q)
    ensures q == Quad(Parse(QuadParts(q)[0], 10), Parse(QuadParts(q)[1], 10),
                      Parse(QuadParts(q)[2], 10), Parse(QuadParts(q)[3], 10))
  {
    DecimalReadsBack(q.a);
    DecimalReadsBack(q.b);
    DecimalReadsBack(q.c);
    DecimalReadsBack(q.d);
  }

  lemma PrefixPartsRead(groups: seq<nat>)
    requires AllHextets(groups)
    ensures AllGroups(PrefixParts(groups)) && Values(PrefixParts(groups)) == groups[..IPV6_PREFIX_GROUPS]
    ensures Split(Join(PrefixParts(groups), ':'), ":") == PrefixParts(groups)
  {
    HexGroupReadsBack(groups[0]);
    HexGroupReadsBack(groups[1]);
    HexGroupReadsBack(groups[2]);
    HexGroupReadsBack(groups[3]);
    GroupsHoldNo(PrefixParts(groups));
    JoinSplitsBack(PrefixParts(groups), ':');
  }

  /** The first six groups of every IPv4-mapped address. */
  ghost predicate StandsForIpv4(groups: seq<nat>) {
    |groups| == 8 && groups[..6] == [0, 0, 0, 0, 0, 65535]
  }

  lemma MappedStandsForIpv4(groups: seq<nat>)
    requires |groups| == 8
    ensures IsMapped(groups) <==> StandsForIpv4(groups)
  {
    if IsMapped(groups) {
      assert groups[..6] == [0, 0, 0, 0, 0, 65535];
    }
    if StandsForIpv4(groups) {
      assert forall i :: 0 <= i < 6 ==> groups[i] == groups[..6][i];
    }
  }

  /** Both addresses are mapped from one IPv4 address, or neither is mapped and both lie in one /64. */
  ghost predicate SameClient(groups: seq<nat>, other: seq<nat>)
    requires |groups| == 8 && |other| == 8
  {
    if StandsForIpv4(groups) || StandsForIpv4(other) then groups == other else groups[..4] == other[..4]
  }

  lemma MappedKeysAgree(groups: seq<nat>, other: seq<nat>)
    requires AllHextets(groups) && AllHextets(other) && IsMapped(groups) && IsMapped(other)
    ensures KeyOf(groups) == KeyOf(other) <==> groups[6..] == other[6..]
  {
    QuadTextsDiffer(MappedQuad(groups), MappedQuad(other));
    assert KeyOf(groups) == KeyOf(other) <==> MappedQuad(groups) == MappedQuad(other);
    assert groups[6..] == [groups[6], groups[7]] && other[6..] == [other[6], other[7]];
    BytesOf(groups[6], other[6]);
    BytesOf(groups[7], other[7]);
  }

  lemma BytesOf(n: nat, m: nat)
    ensures n / 256 == m / 256 && n % 256 == m % 256 <==> n == m
  {
  }

  lemma PrefixKeysAgree(groups: seq<nat>, other: seq<nat>)
    requires AllHextets(groups) && AllHextets(other) && !IsMapped(groups) && !IsMapped(other)
    ensures KeyOf(groups) == KeyOf(other) <==> groups[..IPV6_PREFIX_GROUPS] == other[..IPV6_PREFIX_GROUPS]
  {
    var mine, theirs := Join(PrefixParts(groups), ':'), Join(PrefixParts(other), ':');
    PrefixPartsRead(groups);
    PrefixPartsRead(other);
    if KeyOf(groups) == KeyOf(other) {
      assert |mine| == |theirs|;
      assert (mine + "::/64")[..|mine|] == mine && (theirs + "::/64")[..|mine|] == theirs;
    }
    if groups[..IPV6_PREFIX_GROUPS] == other[..IPV6_PREFIX_GROUPS] {
      assert forall i :: 0 <= i < IPV6_PREFIX_GROUPS ==>
               groups[i] == groups[..IPV6_PREFIX_GROUPS][i] && other[i] == other[..IPV6_PREFIX_GROUPS][i];
    }
  }

  lemma MappedKeyIsNoPrefix(groups: seq<nat>, other: seq<nat>)
    requires AllHextets(groups) && |other| == 8 && IsMapped(groups) && !IsMapped(other)
    ensures KeyOf(groups) != KeyOf(other)
  {
    QuadHoldsNoColon(MappedQuad(groups));
    var prefix := Join(PrefixParts(other), ':');
    assert (prefix + "::/64")[|prefix|] == ':';
  }

  lemma QuadHoldsNoColon(q: Quad)
    requires IsQuad(q)
    ensures ':' !in QuadText(q) && '%' !in QuadText(q)
  {
    DecimalReadsBack(q.a);
    DecimalReadsBack(q.b);
    DecimalReadsBack(q.c);
    DecimalReadsBack(q.d);
    JoinHolds(QuadParts(q), '.', ':');
    JoinHolds(QuadParts(q), '.', '%');
  }

  lemma KeysAgreeExactlyForOneClient(groups: seq<nat>, other: seq<nat>)
    requires AllHextets(groups) && AllHextets(other)
    ensures KeyOf(groups) == KeyOf(other) <==> SameClient(groups, other)
  {
    MappedStandsForIpv4(groups);
    MappedStandsForIpv4(other);
    if IsMapped(groups) && IsMapped(other) {
      MappedKeysAgree(groups, other);
      assert groups == groups[..6] + groups[6..] && other == other[..6] + other[6..];
    } else if IsMapped(groups) {
      MappedKeyIsNoPrefix(groups, other);
    } else if IsMapped(other) {
      MappedKeyIsNoPrefix(other, groups);
    } else {
      PrefixKeysAgree(groups, other);
    }
  }

  // ---- Whole addresses ----

  lemma WrittenHoldsNoZone(form: Form)
    requires Valid(form)
    ensures '%' !in Write(form)
  {
    GroupsHoldNo(form.groups);
    if form.dotted.Some? {
      QuadHoldsNoColon(form.dotted.value);
    }
    JoinHolds(WithQuad(form.groups, form.dotted), ':', '%');
    if form.Elided? {
      GroupsHoldNo(form.head);
      JoinHolds(form.head, ':', '%');
    }
  }

  predicate EndsLine(c: char) {
    c == '\n' || c == '\r' || c == '\U{2028}' || c == '\U{2029}'
  }

  /** A zone, with its `%`, or none. */
  ghost predicate IsZone(zone: string) {
    zone == "" || CutsAt(zone, 0)
  }

  /** A `%` with no line break after it. */
  ghost predicate CutsAt(s: string, k: nat)
    requires k < |s|
  {
    s[k] == '%' && forall i :: k < i < |s| ==> !EndsLine(s[i])
  }

  /** Any text keeps exactly what stands before the first such `%`. */
  lemma {:induction false} ZoneIsCutAtFirst(s: string)
    ensures StripZone(s) <= s
    ensures |StripZone(s)| < |s| ==> CutsAt(s, |StripZone(s)|)
    ensures forall k :: 0 <= k < |StripZone(s)| ==> !CutsAt(s, k)
  {
    if s != "" {
      var rest := s[1..];
      ZoneIsCutAtFirst(rest);
      assert forall k :: 0 < k < |s| ==> s[k] == rest[k - 1];
      assert CutsAt(s, 0) <==> s[0] == '%' && NoLineBreak(rest);
      forall k | 0 < k < |s| ensures CutsAt(s, k) <==> CutsAt(rest, k - 1) {
        assert forall i :: k < i < |s| ==> s[i] == rest[i - 1];
        assert forall i :: k - 1 < i < |rest| ==> rest[i] == s[i + 1];
      }
    }
  }

  lemma {:induction false} ZoneStrips(literal: string, zone: string)
    requires '%' !in literal && IsZone(zone)
    ensures StripZone(literal + zone) == literal
  {
    if literal == "" {
      assert literal + zone == zone;
      if zone != "" {
        assert forall i :: 0 <= i < |zone[1..]| ==> zone[1..][i] == zone[i + 1];
      }
    } else {
      assert (literal + zone)[1..] == literal[1..] + zone;
      assert literal[0] in literal;
      ZoneStrips(literal[1..], zone);
    }
  }

  lemma KeyOfWritten(form: Form, zone: string)
    requires Valid(form) && IsZone(zone)
    ensures AllHextets(Value(form))
    ensures ClientRateKey(Write(form) + zone) == KeyOf(Value(form))
  {
    WrittenHoldsNoZone(form);
    ZoneStrips(Write(form), zone);
    GroupsReadBack(form);
    ValueIsEightHextets(form);
    assert IsIpv6(Write(form));
  }

  /** However two IPv6 addresses are written, with a zone or without, they are limited under one key exactly
      when both are IPv4-mapped to one address, or neither is mapped and both share their first four groups. */
  lemma LiteralsShareAKeyExactlyForOneClient(form: Form, zone: string, other: Form, otherZone: string)
    requires Valid(form) && Valid(other) && IsZone(zone) && IsZone(otherZone)
    ensures AllHextets(Value(form)) && AllHextets(Value(other))
    ensures ClientRateKey(Write(form) + zone) == ClientRateKey(Write(other) + otherZone)
       <==> SameClient(Value(form), Value(other))
  {
    KeyOfWritten(form, zone);
    KeyOfWritten(other, otherZone);
    KeysAgreeExactlyForOneClient(Value(form), Value(other));
  }

  lemma {:induction false} JoinHoldsSeparator(parts: seq<string>, separator: char)
    requires |parts| > 1
    ensures separator in Join(parts, separator)
  {
  }

  lemma LiteralsHoldColons(form: Form)
    requires Valid(form)
    ensures ':' in Write(form)
  {
    match form
    case Plain(groups, dotted) =>
      JoinHoldsSeparator(WithQuad(groups, dotted), ':');
    case Elided(head, tail, dotted) =>
      assert Write(form)[|Join(head, ':')|] == ':';
  }

  /** An IPv4 address keeps its text as its key, and of all IPv6 addresses, in every form and zone, only the one
      that maps it gets that same key. */
  lemma MappedAddressCountsAsItsIpv4(q: Quad, form: Form, zone: string)
    requires IsQuad(q) && Valid(form) && IsZone(zone)
    ensures ClientRateKey(QuadText(q)) == QuadText(q)
    ensures ClientRateKey(Write(form) + zone) == ClientRateKey(QuadText(q))
       <==> Value(form) == [0, 0, 0, 0, 0, 65535, 256 * q.a + q.b, 256 * q.c + q.d]
  {
    KeyOfWritten(form, zone);
    QuadHoldsNoColon(q);
    ZoneStrips(QuadText(q), "");
    assert QuadText(q) + "" == QuadText(q);
    if IsIpv6(QuadText(q)) {
      var literal :| Valid(literal) && Write(literal) == QuadText(q);
      LiteralsHoldColons(literal);
    }
    MapsExactly(Value(form), q);
  }

  lemma MapsExactly(groups: seq<nat>, q: Quad)
    requires AllHextets(groups) && IsQuad(q)
    ensures KeyOf(groups) == QuadText(q) <==> groups == [0, 0, 0, 0, 0, 65535, 256 * q.a + q.b, 256 * q.c + q.d]
  {
    var mapped := [0, 0, 0, 0, 0, 65535, 256 * q.a + q.b, 256 * q.c + q.d];
    MappedStandsForIpv4(groups);
    if IsMapped(groups) {
      QuadTextsDiffer(MappedQuad(groups), q);
      assert groups == groups[..6] + [groups[6], groups[7]];
      BytesOfGroup(groups[6], q.a, q.b);
      BytesOfGroup(groups[7], q.c, q.d);
    } else {
      var prefix := Join(PrefixParts(groups), ':');
      QuadHoldsNoColon(q);
      assert (prefix + "::/64")[|prefix|] == ':';
      assert mapped[..6] == [0, 0, 0, 0, 0, 65535];
    }
  }

  lemma BytesOfGroup(group: nat, high: nat, low: nat)
    requires low < 256
    ensures group == 256 * high + low <==> group / 256 == high && group % 256 == low
  {
  }
}
