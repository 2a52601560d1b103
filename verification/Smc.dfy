/**
 The parser for nested "section { key value }" files (amxmodx/CTextParsers.cpp) as a machine that
 reads one character after the other and tells a listener what it finds.

 The text is one buffer here: reading it in pieces, and the escapes in strings, are not modelled.
 */
module Smc {
  import opened Basics

  /** What the listener is told. */
  datatype Event = NewSection(name: string) | KeyValue(key: string, value: string) | LeavingSection

  datatype Error = Okay | InvalidTokens | InvalidSection1 | InvalidSection2 | InvalidSection3 | InvalidSection4
                 | InvalidSection5 | InvalidProperty1

  /** A staged string: where it starts, and where it ends once that is known. */
  datatype Staged = Staged(from: nat, end: Option<nat>, quoted: bool)

  /** The parser between two characters. */
  datatype Parser = Parser(pos: nat, level: nat, inQuote: bool, ignoring: bool, comment: bool,
                           s0: Option<Staged>, s1: Option<Staged>, s2: Option<Staged>)

  const Start := Parser(0, 0, false, false, false, None, None, None)

  datatype Stepped = Go(p: Parser, events: seq<Event>) | Stop | Fail(err: Error)

  predicate IsSpace(c: char) {
    c == '\n' || c == '\r' || c == '\t' || c == '\U{000B}' || c == '\U{000C}' || c == ' '
  }

  /** The characters of a staged string; without an end it runs to the end of the buffer. */
  function TextOf(text: string, s: Option<Staged>): string {
    match s
    case None => ""
    case Some(t) =>
      var from := if t.quoted then t.from + 1 else t.from;
      var end := if t.end.Some? then t.end.value else |text|;
      if from <= end <= |text| then text[from..end] else ""
  }

  predicate CanRotate(p: Parser) {
    p.s2.None?
  }

  function Rotate(p: Parser): Parser {
    if p.s0.Some? then p.(s0 := None, s1 := p.s0, s2 := p.s1) else p
  }

  function Ended(p: Parser, quoted: bool): Parser
    requires p.s0.Some?
  {
    p.(s0 := Some(p.s0.value.(end := Some(p.pos), quoted := quoted)))
  }

  function Scrapped(p: Parser): Parser {
    p.(s0 := None, s1 := None, s2 := None)
  }

  function Advance(p: Parser, n: nat, events: seq<Event>): Stepped {
    Go(p.(pos := p.pos + n), events)
  }

  function AtNewline(text: string, p: Parser): Stepped {
    if p.s0.Some? && !CanRotate(p) then Fail(InvalidTokens)
    else
      var p1 := if p.s0.Some? then Rotate(Ended(p, p.s0.value.quoted)) else p;
      var p2 := p1.(inQuote := false, ignoring := p.ignoring && p.comment);
      if p2.s2.None? then Advance(p2, 1, [])
      else if p2.level == 0 then Fail(InvalidProperty1)
      else Advance(Scrapped(p2), 1, [KeyValue(TextOf(text, p2.s2), TextOf(text, p2.s1))])
  }

  function WhileIgnoring(text: string, p: Parser): Stepped
    requires p.pos < |text|
  {
    var c, last := text[p.pos], p.pos == |text| - 1;
    if p.inQuote then
      if p.pos > 0 && c == '"' && text[p.pos - 1] != '\\' then
        var p1 := p.(inQuote := false, ignoring := false);
        if !CanRotate(p1) then Fail(InvalidTokens)
        else Advance(if p1.s0.Some? then Rotate(Ended(p1, true)) else p1, 1, [])
      else if c == '\\' && last then Stop
      else Advance(p, 1, [])
    else if p.comment && c == '*' then
      if last then Stop
      else if text[p.pos + 1] == '/' then Advance(p.(comment := false, ignoring := false), 2, [])
      else Advance(p, 1, [])
    else Advance(p, 1, [])
  }

  /** A string that is being staged ends before a comment. */
  function Restage(p: Parser, ignoring: bool, comment: bool): Stepped {
    var p1 := p.(ignoring := ignoring, comment := comment);
    if p1.s0.None? then Advance(p1, 1, [])
    else if !CanRotate(p1) then Fail(InvalidTokens)
    else Advance(Rotate(Ended(p1, p1.s0.value.quoted)), 1, [])
  }

  function AtOpen(text: string, p: Parser): Stepped {
    if p.s0.Some? && !CanRotate(p) then Fail(InvalidSection1)
    else
      var p1 := Rotate(p);
      if p1.s2.Some? then Fail(InvalidSection1)
      else if p1.s1.None? then Fail(InvalidSection2)
      else Advance(p1.(s1 := None, level := p1.level + 1), 1, [NewSection(TextOf(text, p1.s1))])
  }

  function AtClose(text: string, p: Parser): Stepped {
    if !CanRotate(p) then Fail(InvalidSection3)
    else
      var p1 := Rotate(p);
      if p1.s2.Some? then
        if p1.level == 0 then Fail(InvalidProperty1)
        else Advance(Scrapped(p1).(level := p1.level - 1), 1,
                     [KeyValue(TextOf(text, p1.s2), TextOf(text, p1.s1)), LeavingSection])
      else if p1.s1.Some? then Fail(InvalidSection3)
      else if p1.level == 0 then Fail(InvalidSection4)
      else Advance(Scrapped(p1).(level := p1.level - 1), 1, [LeavingSection])
  }

  function AtQuote(p: Parser): Stepped {
    if p.s0.Some? && !CanRotate(p) then Fail(InvalidTokens)
    else
      var p1 := if p.s0.Some? then Rotate(Ended(p, p.s0.value.quoted)) else p;
      Advance(p1.(s0 := Some(Staged(p.pos, None, false)), inQuote := true, ignoring := true), 1, [])
  }

  function AtSpace(p: Parser): Stepped {
    if p.s0.None? then Advance(p, 1, [])
    else if p.s1.None? then
      var p1 := Ended(p, p.s0.value.quoted);
      Advance(if CanRotate(p1) then Rotate(p1) else p1, 1, [])
    else if !p.s1.value.quoted then Fail(InvalidTokens)
    else Advance(p, 1, [])
  }

  function AtOther(p: Parser): Stepped {
    Advance(if p.s0.None? then p.(s0 := Some(Staged(p.pos, None, false))) else p, 1, [])
  }

  /** One character. */
  function StepAt(text: string, p: Parser): (r: Stepped)
    requires p.pos < |text|
    ensures r.Go? ==> p.pos < r.p.pos <= |text|
  {
    var c, last := text[p.pos], p.pos == |text| - 1;
    if c == '\n' then AtNewline(text, p)
    else if p.ignoring then WhileIgnoring(text, p)
    else if IsSpace(c) then AtSpace(p)
    else if c == ';' then Restage(p, true, p.comment)
    else if c == '/' then
      if last then Stop
      else if text[p.pos + 1] == '/' then Restage(p, true, p.comment)
      else if text[p.pos + 1] == '*' then Restage(p, true, true)
      else Advance(p, 1, [])
    else if c == '{' then AtOpen(text, p)
    else if c == '}' then AtClose(text, p)
    else if c == '"' then AtQuote(p)
    else AtOther(p)
  }

  function AtEnd(p: Parser): Error {
    if p.level > 0 then InvalidSection5 else if p.s0.Some? || p.s1.Some? then InvalidTokens else Okay
  }

  /** All events of the text from the parser's position on, and how the parse ends. */
  function Parse(text: string, p: Parser): (seq<Event>, Error)
    requires p.pos <= |text|
    decreases |text| - p.pos
  {
    if p.pos == |text| then ([], AtEnd(p))
    else match StepAt(text, p)
         case Go(p', events) => var (rest, err) := Parse(text, p'); (events + rest, err)
         case Stop => ([], AtEnd(p))
         case Fail(err) => ([], err)
  }

  // ---------- What the listener can rely on ----------

  /** Openings minus closings. */
  function Depth(events: seq<Event>): int {
    if events == [] then 0
    else Depth(events[..|events| - 1])
         + (match events[|events| - 1] case NewSection(_) => 1 case LeavingSection => -1 case KeyValue(_, _) => 0)
  }

  /** Closings never exceed openings, and keys occur inside sections, at a depth to begin with. */
  ghost predicate Nested(events: seq<Event>, depth: int) {
    && (forall k :: 0 <= k <= |events| ==> depth + Depth(events[..k]) >= 0)
    && (forall k :: 0 <= k < |events| && events[k].KeyValue? ==> depth + Depth(events[..k]) > 0)
  }

  lemma {:induction false} DepthAppend(a: seq<Event>, b: seq<Event>)
    ensures Depth(a + b) == Depth(a) + Depth(b)
  {
    if b == [] {
      assert a + b == a;
    } else {
      var n := |b| - 1;
      assert (a + b)[..|a + b| - 1] == a + b[..n];
      DepthAppend(a, b[..n]);
    }
  }

  lemma NestedAppend(a: seq<Event>, b: seq<Event>, depth: int)
    requires Nested(a, depth) && Nested(b, depth + Depth(a))
    ensures Nested(a + b, depth)
  {
    forall k | 0 <= k <= |a + b| ensures depth + Depth((a + b)[..k]) >= 0 {
      if k <= |a| {
        assert (a + b)[..k] == a[..k];
      } else {
        assert (a + b)[..k] == a + b[..k - |a|];
        DepthAppend(a, b[..k - |a|]);
      }
    }
    forall k | 0 <= k < |a + b| && (a + b)[k].KeyValue? ensures depth + Depth((a + b)[..k]) > 0 {
      if k < |a| {
        assert (a + b)[..k] == a[..k] && a[k].KeyValue?;
      } else {
        assert (a + b)[..k] == a + b[..k - |a|] && b[k - |a|].KeyValue?;
        DepthAppend(a, b[..k - |a|]);
      }
    }
  }

  /** What one character can give rise to at a level, and the level after it. */
  predicate Emits(level: nat, events: seq<Event>, level': int) {
    if events == [] then level' == level
    else if events[0].NewSection? then |events| == 1 && level' == level + 1
    else if events[0].LeavingSection? then |events| == 1 && level > 0 && level' == level - 1
    else level > 0 && (if |events| == 1 then level' == level
                       else |events| == 2 && events[1].LeavingSection? && level' == level - 1)
  }

  predicate EmitsFrom(p: Parser, r: Stepped) {
    r.Go? ==> Emits(p.level, r.events, r.p.level)
  }

  lemma NewlineEmits(text: string, p: Parser)
    ensures EmitsFrom(p, AtNewline(text, p))
  {
  }

  lemma CloseEmits(text: string, p: Parser)
    ensures EmitsFrom(p, AtClose(text, p))
  {
  }

  lemma QuietSteps(text: string, p: Parser, ignoring: bool, comment: bool)
    requires p.pos < |text|
    ensures EmitsFrom(p, WhileIgnoring(text, p)) && EmitsFrom(p, AtSpace(p))
            && EmitsFrom(p, Restage(p, ignoring, comment))
    ensures EmitsFrom(p, AtQuote(p)) && EmitsFrom(p, AtOther(p)) && EmitsFrom(p, AtOpen(text, p))
  {
    hide AtQuote, AtOther, AtOpen;
    QuietTokens(text, p);
  }

  lemma QuietTokens(text: string, p: Parser)
    requires p.pos < |text|
    ensures EmitsFrom(p, AtQuote(p)) && EmitsFrom(p, AtOther(p)) && EmitsFrom(p, AtOpen(text, p))
  {
  }

  lemma StepEmits(text: string, p: Parser)
    requires p.pos < |text|
    ensures EmitsFrom(p, StepAt(text, p))
  {
    NewlineEmits(text, p);
    CloseEmits(text, p);
    QuietSteps(text, p, true, p.comment);
    QuietSteps(text, p, true, true);
  }

  lemma EmittedNests(level: nat, events: seq<Event>, level': int)
    requires Emits(level, events, level')
    ensures Nested(events, level) && level' == level + Depth(events)
  {
  }

  /** One character never closes more than is open, and the level counts what is open. */
  lemma StepNests(text: string, p: Parser)
    requires p.pos < |text| && StepAt(text, p).Go?
    ensures var r := StepAt(text, p); Nested(r.events, p.level) && r.p.level == p.level + Depth(r.events)
  {
    StepEmits(text, p);
    EmittedNests(p.level, StepAt(text, p).events, StepAt(text, p).p.level);
  }

  /** Whatever the text, closings never exceed openings and keys occur inside sections only; a parse
      that ends well delivers as many closings as openings. */
  lemma {:induction false} ParseNests(text: string, p: Parser)
    requires p.pos <= |text|
    ensures var (events, err) := Parse(text, p); Nested(events, p.level) && (err.Okay? ==> p.level + Depth(events) == 0)
    decreases |text| - p.pos
  {
    if p.pos < |text| && StepAt(text, p).Go? {
      var r := StepAt(text, p);
      StepNests(text, p);
      ParseNests(text, r.p);
      NestedAppend(r.events, Parse(text, r.p).0, p.level);
      DepthAppend(r.events, Parse(text, r.p).0);
    }
  }

  // ---------- Printing and parsing again ----------

  /** A document: keys with their values, and sections. */
  datatype Node = Key(key: string, value: string) | Section(name: string, body: seq<Node>)

  function EventsOf(node: Node): seq<Event> {
    match node
    case Key(k, v) => [KeyValue(k, v)]
    case Section(name, body) => [NewSection(name)] + Events(body) + [LeavingSection]
  }

  function Events(nodes: seq<Node>): seq<Event> {
    if nodes == [] then [] else EventsOf(nodes[0]) + Events(nodes[1..])
  }

  function Quoted(s: string): string {
    "\"" + s + "\""
  }

  function PrintOf(node: Node): string {
    match node
    case Key(k, v) => Quoted(k) + " " + Quoted(v) + "\n"
    case Section(name, body) => Quoted(name) + "\n{\n" + Print(body) + "}\n"
  }

  function Print(nodes: seq<Node>): string {
    if nodes == [] then "" else PrintOf(nodes[0]) + Print(nodes[1..])
  }

  predicate Plain(s: string) {
    forall i :: 0 <= i < |s| ==> s[i] != '"' && s[i] != '\\' && s[i] != '\n'
  }

  /** The strings need no escapes, and keys occur inside sections. */
  predicate Printable(nodes: seq<Node>, inside: bool) {
    nodes == []
    || ((match nodes[0]
         case Key(k, v) => inside && Plain(k) && Plain(v)
         case Section(name, body) => Plain(name) && Printable(body, true))
        && Printable(nodes[1..], inside))
  }

  /** The text has the piece at a position. */
  predicate Has(text: string, pos: nat, piece: string) {
    pos + |piece| <= |text| && text[pos..pos + |piece|] == piece
  }

  lemma HasParts(text: string, pos: nat, a: string, b: string)
    requires Has(text, pos, a + b)
    ensures Has(text, pos, a) && Has(text, pos + |a|, b)
  {
    assert text[pos..pos + |a|] == (a + b)[..|a|] == a;
    assert text[pos + |a|..pos + |a| + |b|] == (a + b)[|a|..] == b;
  }

  lemma HasInside(text: string, pos: nat, part: string)
    requires Has(text, pos, part)
    ensures pos + |part| <= |text|
  {
  }

  lemma HasChar(text: string, pos: nat, piece: string, k: nat)
    requires Has(text, pos, piece) && k < |piece|
    ensures text[pos + k] == piece[k]
  {
  }

  /** From one parser state the parse comes to another, with events in between. */
  ghost predicate Leads(text: string, p: Parser, events: seq<Event>, p': Parser) {
    && p.pos <= |text| && p'.pos <= |text|
    && Parse(text, p) == (events + Parse(text, p').0, Parse(text, p').1)
  }

  lemma LeadsOn(text: string, p: Parser, a: seq<Event>, q: Parser, b: seq<Event>, r: Parser)
    requires Leads(text, p, a, q) && Leads(text, q, b, r)
    ensures Leads(text, p, a + b, r)
  {
    assert a + (b + Parse(text, r).0) == a + b + Parse(text, r).0;
  }

  lemma LeadsQuietly(text: string, p: Parser, q: Parser, b: seq<Event>, r: Parser)
    requires Leads(text, p, [], q) && Leads(text, q, b, r)
    ensures Leads(text, p, b, r)
  {
    LeadsOn(text, p, [], q, b, r);
    assert [] + b == b;
  }

  lemma LeadsNowhere(text: string, p: Parser)
    requires p.pos <= |text|
    ensures Leads(text, p, [], p)
  {
    assert [] + Parse(text, p).0 == Parse(text, p).0;
  }

  /** The parse ends where it leads when there is no next step. */
  lemma LeadsEnd(text: string, p: Parser, events: seq<Event>, p': Parser)
    requires Leads(text, p, events, p') && (p'.pos == |text| || !StepAt(text, p').Go?)
    ensures Parse(text, p)
         == (events, if p'.pos < |text| && StepAt(text, p').Fail? then StepAt(text, p').err else AtEnd(p'))
  {
    assert events + [] == events;
  }

  lemma LeadsStep(text: string, p: Parser)
    requires p.pos < |text| && StepAt(text, p).Go?
    ensures Leads(text, p, StepAt(text, p).events, StepAt(text, p).p)
  {
  }

  lemma {:induction false} LeadsThroughQuote(text: string, p: Parser, end: nat)
    requires p.ignoring && p.inQuote && 0 < p.pos <= end < |text|
    requires forall i :: p.pos <= i < end ==> text[i] != '"' && text[i] != '\\' && text[i] != '\n'
    ensures Leads(text, p, [], p.(pos := end))
    decreases end - p.pos
  {
    if p.pos < end {
      LeadsThroughQuote(text, p.(pos := p.pos + 1), end);
      LeadsStep(text, p);
      LeadsQuietly(text, p, p.(pos := p.pos + 1), [], p.(pos := end));
    } else {
      LeadsNowhere(text, p);
    }
  }

  function Between(pos: nat, level: nat, s1: Option<Staged>, s2: Option<Staged>): Parser {
    Parser(pos, level, false, false, false, None, s1, s2)
  }

  function Whole(pos: nat, s: string): Option<Staged> {
    Some(Staged(pos, Some(pos + |s| + 1), true))
  }

  /** A quoted string is staged. */
  lemma LeadsQuoted(text: string, pos: nat, level: nat, s1: Option<Staged>, s: string)
    requires Has(text, pos, Quoted(s)) && Plain(s)
    ensures Leads(text, Between(pos, level, s1, None), [], Between(pos + |s| + 2, level, Whole(pos, s), s1))
    ensures TextOf(text, Whole(pos, s)) == s
  {
    hide Leads, Has;
    var p, end := Between(pos, level, s1, None), pos + |s| + 1;
    HasInside(text, pos, Quoted(s));
    HasChar(text, pos, Quoted(s), 0);
    HasChar(text, pos, Quoted(s), |s| + 1);
    forall i | 0 <= i < |s| ensures text[pos + 1 + i] == s[i] {
      HasChar(text, pos, Quoted(s), i + 1);
    }
    var p1 := Parser(pos + 1, level, true, true, false, Some(Staged(pos, None, false)), s1, None);
    LeadsStep(text, p);
    assert StepAt(text, p) == Go(p1, []);
    forall i | p1.pos <= i < end ensures text[i] != '"' && text[i] != '\\' && text[i] != '\n' {
      assert text[i] == s[i - pos - 1];
    }
    LeadsThroughQuote(text, p1, end);
    LeadsQuietly(text, p, p1, [], p1.(pos := end));
    LeadsStep(text, p1.(pos := end));
    assert text[end - 1] != '\\';
    assert StepAt(text, p1.(pos := end)) == Go(Between(end + 1, level, Whole(pos, s), s1), []);
    LeadsQuietly(text, p, p1.(pos := end), [], Between(end + 1, level, Whole(pos, s), s1));
    assert text[pos + 1..end] == s;
  }

  lemma KeyParts(text: string, pos: nat, k: string, v: string)
    requires Has(text, pos, Quoted(k) + " " + Quoted(v) + "\n")
    ensures pos + |k| + |v| + 6 <= |text| && Has(text, pos, Quoted(k)) && Has(text, pos + |k| + 3, Quoted(v))
    ensures text[pos + |k| + 2] == ' ' && text[pos + |k| + |v| + 5] == '\n'
  {
    HasParts(text, pos, Quoted(k) + " " + Quoted(v), "\n");
    HasParts(text, pos, Quoted(k) + " ", Quoted(v));
    HasParts(text, pos, Quoted(k), " ");
    HasChar(text, pos + |k| + 2, " ", 0);
    HasChar(text, pos + |k| + |v| + 5, "\n", 0);
  }

  lemma LeadsKey(text: string, pos: nat, level: nat, k: string, v: string)
    requires Has(text, pos, Quoted(k) + " " + Quoted(v) + "\n") && Plain(k) && Plain(v) && level > 0
    ensures Leads(text, Between(pos, level, None, None), [KeyValue(k, v)],
                  Between(pos + |k| + |v| + 6, level, None, None))
  {
    hide Leads, Has, Plain, Quoted;
    var p0 := Between(pos, level, None, None);
    KeyParts(text, pos, k, v);
    LeadsQuoted(text, pos, level, None, k);
    var p1 := Between(pos + |k| + 2, level, Whole(pos, k), None);
    LeadsStep(text, p1);
    var p2 := p1.(pos := pos + |k| + 3);
    LeadsQuietly(text, p0, p1, [], p2);
    LeadsQuoted(text, p2.pos, level, p1.s1, v);
    var p3 := Between(pos + |k| + |v| + 5, level, Whole(p2.pos, v), p1.s1);
    LeadsQuietly(text, p0, p2, [], p3);
    LeadsStep(text, p3);
    LeadsQuietly(text, p0, p3, [KeyValue(k, v)], Between(p3.pos + 1, level, None, None));
  }

  /** The head of a section, and its end. */
  lemma LeadsHead(text: string, pos: nat, level: nat, name: string)
    requires Has(text, pos, Quoted(name) + "\n{\n") && Plain(name)
    ensures Leads(text, Between(pos, level, None, None), [NewSection(name)],
                  Between(pos + |name| + 5, level + 1, None, None))
  {
    hide Leads, Has, TextOf;
    var p0 := Between(pos, level, None, None);
    HasParts(text, pos, Quoted(name), "\n{\n");
    LeadsQuoted(text, pos, level, None, name);
    var at1 := pos + |name| + 2;
    HasChar(text, at1, "\n{\n", 0);
    HasChar(text, at1, "\n{\n", 1);
    HasChar(text, at1, "\n{\n", 2);
    var p1 := Between(at1, level, Whole(pos, name), None);
    LeadsStep(text, p1);
    var p2 := p1.(pos := at1 + 1);
    LeadsQuietly(text, p0, p1, [], p2);
    LeadsStep(text, p2);
    var p3 := Between(at1 + 2, level + 1, None, None);
    LeadsQuietly(text, p0, p2, [NewSection(name)], p3);
    LeadsStep(text, p3);
    LeadsOn(text, p0, [NewSection(name)], p3, [], Between(at1 + 3, level + 1, None, None));
    assert [NewSection(name)] + [] == [NewSection(name)];
  }

  lemma LeadsTail(text: string, pos: nat, level: nat)
    requires Has(text, pos, "}\n")
    ensures Leads(text, Between(pos, level + 1, None, None), [LeavingSection], Between(pos + 2, level, None, None))
  {
    HasChar(text, pos, "}\n", 0);
    HasChar(text, pos, "}\n", 1);
    var p0 := Between(pos, level + 1, None, None);
    LeadsStep(text, p0);
    var p1 := Between(pos + 1, level, None, None);
    LeadsStep(text, p1);
    LeadsOn(text, p0, [LeavingSection], p1, [], Between(pos + 2, level, None, None));
    assert [LeavingSection] + [] == [LeavingSection];
  }

  lemma {:induction false} LeadsNode(text: string, pos: nat, level: nat, node: Node)
    requires Has(text, pos, PrintOf(node)) && Printable([node], level > 0)
    ensures Leads(text, Between(pos, level, None, None), EventsOf(node),
                  Between(pos + |PrintOf(node)|, level, None, None))
    decreases node
  {
    hide Leads, Has;
    match node
    case Key(k, v) => LeadsKey(text, pos, level, k, v);
    case Section(name, body) =>
      var p0 := Between(pos, level, None, None);
      HasParts(text, pos, Quoted(name) + "\n{\n" + Print(body), "}\n");
      HasParts(text, pos, Quoted(name) + "\n{\n", Print(body));
      LeadsHead(text, pos, level, name);
      var p1 := Between(pos + |name| + 5, level + 1, None, None);
      LeadsNodes(text, p1.pos, level + 1, body);
      var p2 := p1.(pos := p1.pos + |Print(body)|);
      LeadsTail(text, p2.pos, level);
      LeadsOn(text, p0, [NewSection(name)], p1, Events(body), p2);
      LeadsOn(text, p0, [NewSection(name)] + Events(body), p2, [LeavingSection],
              Between(p2.pos + 2, level, None, None));
  }

  lemma NodesParts(nodes: seq<Node>, inside: bool)
    requires Printable(nodes, inside)
    ensures nodes == [] ==> Print(nodes) == "" && Events(nodes) == []
    ensures nodes != [] ==> Printable([nodes[0]], inside) && Printable(nodes[1..], inside)
    ensures nodes != [] ==>
              Print(nodes) == PrintOf(nodes[0]) + Print(nodes[1..])
                && Events(nodes) == EventsOf(nodes[0]) + Events(nodes[1..])
  {
  }

  lemma {:induction false} LeadsNodes(text: string, pos: nat, level: nat, nodes: seq<Node>)
    requires Has(text, pos, Print(nodes)) && Printable(nodes, level > 0)
    ensures Leads(text, Between(pos, level, None, None), Events(nodes),
                  Between(pos + |Print(nodes)|, level, None, None))
    decreases nodes
  {
    hide Leads, Has, Print, PrintOf, Events, EventsOf, Printable;
    var p0 := Between(pos, level, None, None);
    HasInside(text, pos, Print(nodes));
    NodesParts(nodes, level > 0);
    if nodes == [] {
      LeadsNowhere(text, p0);
    } else {
      var rest := nodes[1..];
      HasParts(text, pos, PrintOf(nodes[0]), Print(rest));
      LeadsNode(text, pos, level, nodes[0]);
      var p1 := Between(pos + |PrintOf(nodes[0])|, level, None, None);
      LeadsNodes(text, p1.pos, level, rest);
      LeadsOn(text, p0, EventsOf(nodes[0]), p1, Events(rest), Between(p1.pos + |Print(rest)|, level, None, None));
    }
  }

  /** Round trip: a printed document is parsed to exactly its own sections and keys. */
  lemma PrintThenParse(nodes: seq<Node>)
    requires Printable(nodes, false)
    ensures Parse(Print(nodes), Start) == (Events(nodes), Okay)
  {
    hide Leads, Printable, Print, Events, Parse;
    var text := Print(nodes);
    assert text[0..|text|] == text;
    LeadsNodes(text, 0, 0, nodes);
    LeadsEnd(text, Start, Events(nodes), Between(|text|, 0, None, None));
  }
}
