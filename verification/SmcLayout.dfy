/**
 Section files as people write them (amxmodx/CTextParsers.cpp): with blanks, comments on lines and in blocks, and
 words without quotes. Whatever the layout, the parser delivers the sections and keys of the document.
 */
module SmcLayout {
  import opened Basics
  import opened Smc

  // ---------- What stands between the tokens ----------

  /** A blank or a newline; a comment to the end of the line; a comment over any number of lines. */
  datatype Filler = Blank(c: char) | Line(slashes: bool, text: string) | Block(body: string)

  function TextFor(f: Filler): string {
    match f
    case Blank(c) => [c]
    case Line(slashes, text) => (if slashes then "//" else ";") + text + "\n"
    case Block(body) => "/*" + body + "*/"
  }

  /** The end of a comment stands nowhere in the text. */
  predicate NoEnd(text: string) {
    forall i :: 0 <= i < |text| - 1 ==> text[i] != '*' || text[i + 1] != '/'
  }

  /** A comment over several lines ends at the first end of a comment behind its first character, so that it must not
      begin with a slash. */
  predicate FillerOk(f: Filler) {
    match f
    case Blank(c) => IsSpace(c)
    case Line(_, text) => '\n' !in text
    case Block(body) => NoEnd("*" + body)
  }

  predicate Inline(f: Filler) {
    match f
    case Blank(c) => c != '\n'
    case Line(_, _) => false
    case Block(body) => '\n' !in body
  }

  /** A comment to the end of its line. */
  lemma LeadsLine(text: string, pos: nat, level: nat, s1: Option<Staged>, s2: Option<Staged>, end: nat)
    requires pos < end < |text| && text[end] == '\n' && (text[pos] == ';' || (text[pos] == '/' && text[pos + 1] == '/'))
    requires forall i :: pos <= i < end ==> text[i] != '\n'
    ensures Leads(text, Between(pos, level, s1, s2), [], Parser(end, level, false, true, false, None, s1, s2))
  {
    hide Leads;
    var p, q := Between(pos, level, s1, s2), Parser(pos + 1, level, false, true, false, None, s1, s2);
    LeadsStep(text, p);
    assert StepAt(text, p) == Go(q, []);
    LeadsToNewline(text, q, end);
    LeadsQuietly(text, p, q, [], q.(pos := end));
  }

  lemma {:induction false} LeadsToNewline(text: string, p: Parser, end: nat)
    requires p.ignoring && !p.inQuote && !p.comment && p.pos <= end < |text|
    requires forall i :: p.pos <= i < end ==> text[i] != '\n'
    ensures Leads(text, p, [], p.(pos := end))
    decreases end - p.pos
  {
    hide Leads;
    if p.pos < end {
      LeadsToNewline(text, p.(pos := p.pos + 1), end);
      LeadsStep(text, p);
      LeadsQuietly(text, p, p.(pos := p.pos + 1), [], p.(pos := end));
    } else {
      LeadsNowhere(text, p);
    }
  }

  /** A comment over any number of lines ends at the first end of a comment behind the slash that it begins with. While
      a key waits with its value, a newline delivers them. */
  lemma LeadsBlock(text: string, pos: nat, level: nat, s1: Option<Staged>, s2: Option<Staged>, end: nat)
    requires pos < end && end + 1 < |text| && text[pos] == '/' && text[pos + 1] == '*'
    requires text[end] == '*' && text[end + 1] == '/'
    requires forall i :: pos < i < end ==> text[i] != '*' || text[i + 1] != '/'
    requires s2.Some? ==> forall i :: pos < i < end ==> text[i] != '\n'
    ensures Leads(text, Between(pos, level, s1, s2), [], Between(end + 2, level, s1, s2))
  {
    hide Leads;
    var p, q := Between(pos, level, s1, s2), Parser(pos + 1, level, false, true, true, None, s1, s2);
    LeadsStep(text, p);
    assert StepAt(text, p) == Go(q, []);
    LeadsThroughBlock(text, q, end);
    LeadsQuietly(text, p, q, [], q.(pos := end));
    LeadsStep(text, q.(pos := end));
    LeadsQuietly(text, p, q.(pos := end), [], Between(end + 2, level, s1, s2));
  }

  lemma {:induction false} LeadsThroughBlock(text: string, p: Parser, end: nat)
    requires p.ignoring && !p.inQuote && p.comment && p.s0.None? && p.pos <= end && end + 1 < |text|
    requires forall i :: p.pos <= i < end ==> text[i] != '*' || text[i + 1] != '/'
    requires p.s2.Some? ==> forall i :: p.pos <= i < end ==> text[i] != '\n'
    ensures Leads(text, p, [], p.(pos := end))
    decreases end - p.pos
  {
    hide Leads;
    if p.pos < end {
      LeadsThroughBlock(text, p.(pos := p.pos + 1), end);
      LeadsStep(text, p);
      assert StepAt(text, p) == Go(p.(pos := p.pos + 1), []);
      LeadsQuietly(text, p, p.(pos := p.pos + 1), [], p.(pos := end));
    } else {
      LeadsNowhere(text, p);
    }
  }

  lemma HasChars(text: string, pos: nat, piece: string)
    requires Has(text, pos, piece)
    ensures pos + |piece| <= |text| && forall i {:trigger text[i]} :: pos <= i < pos + |piece| ==>
              text[i] == piece[i - pos]
  {
    forall i {:trigger text[i]} | pos <= i < pos + |piece| ensures text[i] == piece[i - pos] {
      HasChar(text, pos, piece, i - pos);
    }
  }

  lemma LeadsBody(text: string, pos: nat, level: nat, s1: Option<Staged>, s2: Option<Staged>, body: string)
    requires NoEnd("*" + body) && Has(text, pos, "/*" + body + "*/") && (s2.Some? ==> '\n' !in body)
    ensures Leads(text, Between(pos, level, s1, s2), [], Between(pos + |body| + 4, level, s1, s2))
  {
    hide Leads, Has;
    var piece, end := "/*" + body + "*/", pos + |body| + 2;
    HasChars(text, pos, piece);
    assert piece[0] == '/' && piece[1] == '*' && piece[|body| + 2] == '*' && piece[|body| + 3] == '/';
    forall i | pos < i < end ensures text[i] != '*' || text[i + 1] != '/' {
      BodyPair(body, i - pos - 1);
    }
    forall i | pos < i < end && s2.Some? ensures text[i] != '\n' {
      assert text[i] == ("*" + body)[i - pos - 1];
    }
    LeadsBlock(text, pos, level, s1, s2, end);
  }

  lemma BodyPair(body: string, i: nat)
    requires NoEnd("*" + body) && i < |body| + 1
    ensures var piece := "/*" + body + "*/"; piece[i + 1] != '*' || piece[i + 2] != '/'
  {
    var piece := "/*" + body + "*/";
    assert piece[i + 1] == ("*" + body)[i];
    assert i < |body| ==> piece[i + 2] == ("*" + body)[i + 1];
  }

  lemma LeadsComment(text: string, pos: nat, level: nat, s1: Option<Staged>, s2: Option<Staged>, slashes: bool,
                     comment: string)
    requires '\n' !in comment && Has(text, pos, TextFor(Line(slashes, comment)))
    ensures var end := pos + |TextFor(Line(slashes, comment))| - 1;
            && end < |text| && text[end] == '\n'
            && Leads(text, Between(pos, level, s1, s2), [], Parser(end, level, false, true, false, None, s1, s2))
  {
    hide Leads, Has;
    var start := if slashes then "//" else ";";
    var piece := start + comment + "\n";
    HasChars(text, pos, piece);
    assert forall i {:trigger piece[i]} :: 0 <= i < |piece| - 1 ==> piece[i] == (start + comment)[i];
    LeadsLine(text, pos, level, s1, s2, pos + |piece| - 1);
  }

  /** Blanks and comments between tokens go by without events; behind a value, those that stay on its line. */
  lemma LeadsFiller(text: string, pos: nat, level: nat, s1: Option<Staged>, s2: Option<Staged>, f: Filler)
    requires FillerOk(f) && Has(text, pos, TextFor(f)) && (s2.Some? ==> Inline(f))
    ensures Leads(text, Between(pos, level, s1, s2), [], Between(pos + |TextFor(f)|, level, s1, s2))
  {
    hide Leads, Has, NoEnd;
    var p := Between(pos, level, s1, s2);
    HasInside(text, pos, TextFor(f));
    match f
    case Blank(c) =>
      HasChar(text, pos, TextFor(f), 0);
      LeadsStep(text, p);
    case Line(slashes, comment) =>
      LeadsComment(text, pos, level, s1, s2, slashes, comment);
      var end := pos + |TextFor(f)| - 1;
      var q := Parser(end, level, false, true, false, None, s1, s2);
      LeadsStep(text, q);
      LeadsQuietly(text, p, q, [], Between(end + 1, level, s1, s2));
    case Block(body) => LeadsBody(text, pos, level, s1, s2, body);
  }

  function Filling(fillers: seq<Filler>): string {
    if fillers == [] then "" else TextFor(fillers[0]) + Filling(fillers[1..])
  }

  predicate FillersOk(fillers: seq<Filler>) {
    forall i :: 0 <= i < |fillers| ==> FillerOk(fillers[i])
  }

  predicate AllInline(fillers: seq<Filler>) {
    forall i :: 0 <= i < |fillers| ==> Inline(fillers[i])
  }

  lemma {:induction false} LeadsFillers(text: string, pos: nat, level: nat, s1: Option<Staged>, s2: Option<Staged>,
                                        fillers: seq<Filler>)
    requires FillersOk(fillers) && Has(text, pos, Filling(fillers)) && (s2.Some? ==> AllInline(fillers))
    ensures Leads(text, Between(pos, level, s1, s2), [], Between(pos + |Filling(fillers)|, level, s1, s2))
    decreases |fillers|
  {
    hide Leads, Has, FillerOk, TextFor, Inline;
    var p := Between(pos, level, s1, s2);
    HasInside(text, pos, Filling(fillers));
    if fillers == [] {
      LeadsNowhere(text, p);
    } else {
      HasParts(text, pos, TextFor(fillers[0]), Filling(fillers[1..]));
      LeadsFiller(text, pos, level, s1, s2, fillers[0]);
      var next := pos + |TextFor(fillers[0])|;
      LeadsFillers(text, next, level, s1, s2, fillers[1..]);
      LeadsQuietly(text, p, Between(next, level, s1, s2), [],
                   Between(next + |Filling(fillers[1..])|, level, s1, s2));
    }
  }

  // ---------- Tokens ----------

  /** A string in quotes, or a word without. */
  datatype Token = InQuotes(s: string) | Bare(s: string)

  function TokenText(t: Token): string {
    match t
    case InQuotes(s) => Quoted(s)
    case Bare(s) => s
  }

  predicate WordChar(c: char) {
    !IsSpace(c) && c != ';' && c != '/' && c != '{' && c != '}' && c != '"'
  }

  /** A word; the value behind a key in quotes may be several words, with the blanks between and behind them. */
  predicate TokenOk(t: Token, words: bool) {
    match t
    case InQuotes(s) => Plain(s)
    case Bare(s) =>
      && s != "" && WordChar(s[0])
      && forall i :: 0 <= i < |s| ==> WordChar(s[i]) || (words && IsSpace(s[i]) && s[i] != '\n')
  }

  /** Where the token is staged. */
  function StagedAt(pos: nat, t: Token): Option<Staged> {
    match t
    case InQuotes(s) => Whole(pos, s)
    case Bare(s) => Some(Staged(pos, Some(pos + |s|), false))
  }

  /** The parser behind the token: a word is still open. */
  function Behind(pos: nat, level: nat, s1: Option<Staged>, t: Token): Parser {
    match t
    case InQuotes(s) => Between(pos + |s| + 2, level, Whole(pos, s), s1)
    case Bare(s) => Parser(pos + |s|, level, false, false, false, Some(Staged(pos, None, false)), s1, None)
  }

  lemma {:induction false} LeadsWord(text: string, p: Parser, end: nat)
    requires !p.ignoring && !p.inQuote && !p.comment && p.s0.Some? && p.s2.None? && p.pos <= end <= |text|
    requires forall i :: p.pos <= i < end ==>
               WordChar(text[i]) || (p.s1.Some? && p.s1.value.quoted && IsSpace(text[i]) && text[i] != '\n')
    ensures Leads(text, p, [], p.(pos := end))
    decreases end - p.pos
  {
    hide Leads;
    if p.pos < end {
      LeadsWord(text, p.(pos := p.pos + 1), end);
      LeadsStep(text, p);
      assert StepAt(text, p) == Go(p.(pos := p.pos + 1), []);
      LeadsQuietly(text, p, p.(pos := p.pos + 1), [], p.(pos := end));
    } else {
      LeadsNowhere(text, p);
    }
  }

  lemma WordStarts(text: string, pos: nat, level: nat, s1: Option<Staged>)
    requires pos < |text| && WordChar(text[pos])
    ensures var p := Between(pos, level, s1, None);
            StepAt(text, p) == Go(p.(pos := pos + 1, s0 := Some(Staged(pos, None, false))), [])
  {
  }

  lemma LeadsToken(text: string, pos: nat, level: nat, s1: Option<Staged>, t: Token)
    requires Has(text, pos, TokenText(t)) && TokenOk(t, s1.Some? && s1.value.quoted)
    ensures Leads(text, Between(pos, level, s1, None), [], Behind(pos, level, s1, t))
    ensures TextOf(text, StagedAt(pos, t)) == t.s
  {
    hide Leads, Has, StepAt;
    HasChars(text, pos, TokenText(t));
    match t
    case InQuotes(s) => LeadsQuoted(text, pos, level, s1, s);
    case Bare(s) =>
      var p, q := Between(pos, level, s1, None), Behind(pos, level, s1, t).(pos := pos + 1);
      WordStarts(text, pos, level, s1);
      LeadsStep(text, p);
      LeadsWord(text, q, pos + |s|);
      LeadsQuietly(text, p, q, [], q.(pos := pos + |s|));
      assert text[pos..pos + |s|] == s;
  }

  /** A newline, or the beginning of a comment. */
  predicate EndsLine(text: string, pos: nat) {
    pos < |text|
    && (text[pos] == '\n' || text[pos] == ';'
        || (text[pos] == '/' && pos + 1 < |text| && (text[pos + 1] == '/' || text[pos + 1] == '*')))
  }

  /** What ends a word: also a blank, if it is the first word of its line. */
  predicate EndsWord(text: string, pos: nat, s1: Option<Staged>) {
    EndsLine(text, pos) || (s1.None? && pos < |text| && IsSpace(text[pos]))
  }

  /** There the word is staged. */
  lemma TokenStaged(text: string, pos: nat, level: nat, s1: Option<Staged>, t: Token)
    requires t.InQuotes? || EndsWord(text, pos + |t.s|, s1)
    requires Behind(pos, level, s1, t).pos <= |text|
    ensures Leads(text, Behind(pos, level, s1, t), [], Between(pos + |TokenText(t)|, level, StagedAt(pos, t), s1))
  {
    var p, q := Behind(pos, level, s1, t), Between(pos + |TokenText(t)|, level, StagedAt(pos, t), s1);
    if t.Bare? {
      WordEnds(text, p, q);
    } else {
      LeadsNowhere(text, p);
    }
  }

  lemma WordEnds(text: string, p: Parser, q: Parser)
    requires EndsWord(text, p.pos, p.s1) && !p.ignoring && !p.inQuote && !p.comment && p.s0.Some? && p.s2.None?
    requires q == Between(p.pos, p.level, Some(p.s0.value.(end := Some(p.pos))), p.s1)
    ensures Leads(text, p, [], q)
  {
    hide Parse;
    assert StepAt(text, p) == StepAt(text, q);
    SameStepSameParse(text, p, q);
  }

  lemma SameStepSameParse(text: string, p: Parser, q: Parser)
    requires p.pos == q.pos < |text| && StepAt(text, p) == StepAt(text, q)
             && (StepAt(text, p).Stop? ==> AtEnd(p) == AtEnd(q))
    ensures Leads(text, p, [], q)
  {
    assert [] + Parse(text, q).0 == Parse(text, q).0;
  }

  // ---------- Documents ----------

  /** A key with its value on one line. */
  datatype Pair = Pair(before: seq<Filler>, key: Token, mid: seq<Filler>, value: Token, behind: seq<Filler>)

  /** The end of the line of a pair. */
  datatype LineEnd = Newline | Comment(slashes: bool, text: string)

  datatype Item = Entry(pair: Pair, end: LineEnd)
                | Group(before: seq<Filler>, name: Token, mid: seq<Filler>, body: seq<Item>, last: seq<Filler>)

  function PairText(p: Pair): string {
    Filling(p.before) + (TokenText(p.key) + (Filling(p.mid) + (TokenText(p.value) + Filling(p.behind))))
  }

  function EndText(end: LineEnd): string {
    match end
    case Newline => "\n"
    case Comment(slashes, text) => TextFor(Line(slashes, text))
  }

  function ItemText(item: Item): string {
    match item
    case Entry(pair, end) => PairText(pair) + EndText(end)
    case Group(before, name, mid, body, last) =>
      Filling(before) + (TokenText(name) + (Filling(mid) + ("{" + (Layout(body) + (Filling(last) + "}")))))
  }

  function Layout(items: seq<Item>): string {
    if items == [] then "" else ItemText(items[0]) + Layout(items[1..])
  }

  predicate PairOk(p: Pair) {
    && FillersOk(p.before) && FillersOk(p.mid) && FillersOk(p.behind) && AllInline(p.behind)
    && TokenOk(p.key, false) && TokenOk(p.value, p.key.InQuotes?)
    && (p.key.Bare? ==> p.mid != [])
    && (p.value.Bare? && p.behind != [] ==> p.behind[0].Block?)
  }

  predicate EndOk(end: LineEnd) {
    end.Comment? ==> '\n' !in end.text
  }

  predicate LayoutOk(items: seq<Item>, inside: bool) {
    items == []
    || ((match items[0]
         case Entry(pair, end) => inside && PairOk(pair) && EndOk(end)
         case Group(before, name, mid, body, last) =>
           && FillersOk(before) && TokenOk(name, false) && FillersOk(mid) && (name.Bare? ==> mid != [])
           && LayoutOk(body, true) && FillersOk(last))
        && LayoutOk(items[1..], inside))
  }

  /** The document that is laid out: keys with their values, and sections. */
  function KeyOf(p: Pair): Node {
    Key(p.key.s, p.value.s)
  }

  function NodeOf(item: Item): Node {
    match item
    case Entry(pair, _) => KeyOf(pair)
    case Group(_, name, _, body, _) => Section(name.s, Document(body))
  }

  function Document(items: seq<Item>): seq<Node> {
    if items == [] then [] else [NodeOf(items[0])] + Document(items[1..])
  }

  // ---------- The layout does not matter ----------

  lemma FillerEnds(text: string, pos: nat, fillers: seq<Filler>, s1: Option<Staged>)
    requires FillersOk(fillers) && fillers != [] && Has(text, pos, Filling(fillers))
    requires s1.Some? ==> fillers[0].Block?
    ensures EndsWord(text, pos, s1)
  {
    var first := TextFor(fillers[0]);
    assert FillerOk(fillers[0]);
    HasParts(text, pos, first, Filling(fillers[1..]));
    HasChars(text, pos, first);
    assert text[pos] == first[0] && (|first| > 1 ==> text[pos + 1] == first[1]);
  }

  lemma FourParts(text: string, pos: nat, a: string, b: string, c: string, rest: string)
    requires Has(text, pos, a + (b + (c + rest)))
    ensures Has(text, pos, a) && Has(text, pos + |a|, b) && Has(text, pos + |a| + |b|, c)
    ensures Has(text, pos + |a| + |b| + |c|, rest) && |a + (b + (c + rest))| == |a| + |b| + |c| + |rest|
  {
    hide Has;
    HasParts(text, pos, a, b + (c + rest));
    HasParts(text, pos + |a|, b, c + rest);
    HasParts(text, pos + |a| + |b|, c, rest);
  }

  lemma NoFilling()
    ensures Filling([]) == ""
  {
  }

  lemma PairParts(text: string, pos: nat, p: Pair) returns (at1: nat, at2: nat, at3: nat, at4: nat)
    requires Has(text, pos, PairText(p))
    ensures at1 == pos + |Filling(p.before)| && at2 == at1 + |TokenText(p.key)| && at3 == at2 + |Filling(p.mid)|
    ensures at4 == at3 + |TokenText(p.value)|
    ensures Has(text, pos, Filling(p.before)) && Has(text, at1, TokenText(p.key)) && Has(text, at2, Filling(p.mid))
    ensures Has(text, at3, TokenText(p.value)) && Has(text, at4, Filling(p.behind))
    ensures pos + |PairText(p)| == at4 + |Filling(p.behind)|
  {
    hide Has, Filling, TokenText;
    at1 := pos + |Filling(p.before)|;
    at2 := at1 + |TokenText(p.key)|;
    at3 := at2 + |Filling(p.mid)|;
    at4 := at3 + |TokenText(p.value)|;
    FourParts(text, pos, Filling(p.before), TokenText(p.key), Filling(p.mid), TokenText(p.value) + Filling(p.behind));
    HasParts(text, at3, TokenText(p.value), Filling(p.behind));
  }

  /** A token between fillers. */
  lemma LeadsTokenHere(text: string, pos: nat, level: nat, s1: Option<Staged>, t: Token)
    requires Has(text, pos, TokenText(t)) && TokenOk(t, s1.Some? && s1.value.quoted)
    requires t.Bare? ==> EndsWord(text, pos + |t.s|, s1)
    ensures Leads(text, Between(pos, level, s1, None), [], Between(pos + |TokenText(t)|, level, StagedAt(pos, t), s1))
    ensures TextOf(text, StagedAt(pos, t)) == t.s
  {
    hide Leads, TokenOk, EndsWord, TextOf;
    HasInside(text, pos, TokenText(t));
    LeadsToken(text, pos, level, s1, t);
    TokenStaged(text, pos, level, s1, t);
    LeadsQuietly(text, Between(pos, level, s1, None), Behind(pos, level, s1, t), [],
                 Between(pos + |TokenText(t)|, level, StagedAt(pos, t), s1));
  }

  lemma LeadsPair(text: string, pos: nat, level: nat, p: Pair) returns (key: Option<Staged>, value: Option<Staged>)
    requires Has(text, pos, PairText(p)) && PairOk(p)
    requires p.value.Bare? && p.behind == [] ==> EndsLine(text, pos + |PairText(p)|)
    ensures key.Some? && value.Some? && TextOf(text, key) == p.key.s && TextOf(text, value) == p.value.s
    ensures Leads(text, Between(pos, level, None, None), [], Between(pos + |PairText(p)|, level, value, key))
  {
    hide Leads, Has, TextOf, TokenOk, FillersOk, AllInline, Filling, EndsWord, EndsLine, PairText;
    var at1, at2, at3, at4 := PairParts(text, pos, p);
    NoFilling();
    var p0 := Between(pos, level, None, None);
    LeadsFillers(text, pos, level, None, None, p.before);
    if p.key.Bare? {
      FillerEnds(text, at2, p.mid, None);
    }
    LeadsTokenHere(text, at1, level, None, p.key);
    key := StagedAt(at1, p.key);
    LeadsQuietly(text, p0, Between(at1, level, None, None), [], Between(at2, level, key, None));
    LeadsFillers(text, at2, level, key, None, p.mid);
    LeadsQuietly(text, p0, Between(at2, level, key, None), [], Between(at3, level, key, None));
    value := LeadsValue(text, p0, at3, level, key, p.value, p.behind);
  }

  lemma LeadsValue(text: string, p0: Parser, pos: nat, level: nat, key: Option<Staged>, t: Token, behind: seq<Filler>)
    returns (value: Option<Staged>)
    requires Leads(text, p0, [], Between(pos, level, key, None)) && key.Some?
    requires Has(text, pos, TokenText(t)) && Has(text, pos + |TokenText(t)|, Filling(behind))
    requires TokenOk(t, key.value.quoted) && FillersOk(behind) && AllInline(behind)
    requires t.Bare? ==> if behind == [] then EndsLine(text, pos + |t.s|) else behind[0].Block?
    ensures value.Some? && TextOf(text, value) == t.s
    ensures Leads(text, p0, [], Between(pos + |TokenText(t)| + |Filling(behind)|, level, value, key))
  {
    hide Leads, Has, TextOf, TokenOk, FillersOk, AllInline, Filling, EndsLine;
    if t.Bare? && behind != [] {
      FillerEnds(text, pos + |t.s|, behind, key);
    }
    LeadsTokenHere(text, pos, level, key, t);
    value := StagedAt(pos, t);
    var at := pos + |TokenText(t)|;
    LeadsQuietly(text, p0, Between(pos, level, key, None), [], Between(at, level, value, key));
    LeadsFillers(text, at, level, value, key, behind);
    LeadsQuietly(text, p0, Between(at, level, value, key), [], Between(at + |Filling(behind)|, level, value, key));
  }

  /** The end of its line delivers a pair. */
  lemma LeadsLineEnd(text: string, pos: nat, level: nat, key: Option<Staged>, value: Option<Staged>, end: LineEnd)
    requires EndOk(end) && Has(text, pos, EndText(end)) && level > 0 && key.Some?
    ensures Leads(text, Between(pos, level, value, key), [KeyValue(TextOf(text, key), TextOf(text, value))],
                  Between(pos + |EndText(end)|, level, None, None))
  {
    hide Leads, Has, TextOf;
    var p, events := Between(pos, level, value, key), [KeyValue(TextOf(text, key), TextOf(text, value))];
    HasInside(text, pos, EndText(end));
    match end
    case Newline =>
      HasChar(text, pos, "\n", 0);
      LeadsStep(text, p);
    case Comment(slashes, comment) =>
      LeadsComment(text, pos, level, value, key, slashes, comment);
      var q := Parser(pos + |EndText(end)| - 1, level, false, true, false, None, value, key);
      LeadsStep(text, q);
      LeadsQuietly(text, p, q, events, Between(q.pos + 1, level, None, None));
  }

  lemma EndEndsLine(text: string, pos: nat, end: LineEnd)
    requires Has(text, pos, EndText(end))
    ensures EndsLine(text, pos)
  {
    var piece := EndText(end);
    HasChars(text, pos, piece);
    assert text[pos] == piece[0] && (|piece| > 1 ==> text[pos + 1] == piece[1]);
  }

  lemma LeadsEntry(text: string, pos: nat, level: nat, pair: Pair, end: LineEnd)
    requires Has(text, pos, PairText(pair) + EndText(end)) && PairOk(pair) && EndOk(end) && level > 0
    ensures Leads(text, Between(pos, level, None, None), [KeyValue(pair.key.s, pair.value.s)],
                  Between(pos + |PairText(pair)| + |EndText(end)|, level, None, None))
  {
    hide Leads, Has, TextOf, PairText, EndText, PairOk, EndOk, EndsLine;
    HasParts(text, pos, PairText(pair), EndText(end));
    var at := pos + |PairText(pair)|;
    EndEndsLine(text, at, end);
    var key, value := LeadsPair(text, pos, level, pair);
    LeadsLineEnd(text, at, level, key, value, end);
    LeadsQuietly(text, Between(pos, level, None, None), Between(at, level, value, key),
                 [KeyValue(pair.key.s, pair.value.s)], Between(at + |EndText(end)|, level, None, None));
  }

  /** The name of a section and its opening. */
  lemma LeadsOpening(text: string, pos: nat, level: nat, before: seq<Filler>, name: Token, mid: seq<Filler>,
                     rest: string)
    requires Has(text, pos, Filling(before) + (TokenText(name) + (Filling(mid) + ("{" + rest))))
    requires FillersOk(before) && TokenOk(name, false) && FillersOk(mid) && (name.Bare? ==> mid != [])
    ensures var at := pos + |Filling(before)| + |TokenText(name)| + |Filling(mid)| + 1;
            && Has(text, at, rest)
            && Leads(text, Between(pos, level, None, None), [NewSection(name.s)], Between(at, level + 1, None, None))
  {
    hide Leads, Has, TextOf, TokenOk, FillersOk, Filling, EndsWord;
    FourParts(text, pos, Filling(before), TokenText(name), Filling(mid), "{" + rest);
    var p0, at1 := Between(pos, level, None, None), pos + |Filling(before)|;
    var at2 := at1 + |TokenText(name)|;
    var at3 := at2 + |Filling(mid)|;
    HasParts(text, at3, "{", rest);
    HasChar(text, at3, "{", 0);
    HasInside(text, at3, "{");
    LeadsFillers(text, pos, level, None, None, before);
    if name.Bare? {
      FillerEnds(text, at2, mid, None);
    }
    LeadsTokenHere(text, at1, level, None, name);
    var s := StagedAt(at1, name);
    LeadsQuietly(text, p0, Between(at1, level, None, None), [], Between(at2, level, s, None));
    LeadsFillers(text, at2, level, s, None, mid);
    LeadsQuietly(text, p0, Between(at2, level, s, None), [], Between(at3, level, s, None));
    LeadsStep(text, Between(at3, level, s, None));
    LeadsQuietly(text, p0, Between(at3, level, s, None), [NewSection(name.s)], Between(at3 + 1, level + 1, None, None));
  }

  /** The end of a section. */
  lemma LeadsClosing(text: string, pos: nat, level: nat, last: seq<Filler>)
    requires Has(text, pos, Filling(last) + "}") && FillersOk(last)
    ensures Leads(text, Between(pos, level + 1, None, None), [LeavingSection],
                  Between(pos + |Filling(last)| + 1, level, None, None))
  {
    hide Leads, Has, Filling, FillersOk;
    HasParts(text, pos, Filling(last), "}");
    var p, at := Between(pos, level + 1, None, None), pos + |Filling(last)|;
    HasChar(text, at, "}", 0);
    HasInside(text, at, "}");
    LeadsFillers(text, pos, level + 1, None, None, last);
    LeadsStep(text, Between(at, level + 1, None, None));
    LeadsQuietly(text, p, Between(at, level + 1, None, None), [LeavingSection], Between(at + 1, level, None, None));
  }

  lemma {:induction false} LeadsItem(text: string, pos: nat, level: nat, item: Item)
    requires Has(text, pos, ItemText(item)) && LayoutOk([item], level > 0)
    ensures Leads(text, Between(pos, level, None, None), EventsOf(NodeOf(item)),
                  Between(pos + |ItemText(item)|, level, None, None))
    decreases item
  {
    hide Leads, Has, PairText, EndText, PairOk, EndOk, TokenOk, FillersOk, Filling, TokenText;
    match item
    case Entry(pair, end) => LeadsEntry(text, pos, level, pair, end);
    case Group(before, name, mid, body, last) =>
      var rest := Layout(body) + (Filling(last) + "}");
      var p0 := Between(pos, level, None, None);
      LeadsOpening(text, pos, level, before, name, mid, rest);
      var at := pos + |Filling(before)| + |TokenText(name)| + |Filling(mid)| + 1;
      HasParts(text, at, Layout(body), Filling(last) + "}");
      LeadsItems(text, at, level + 1, body);
      var end := at + |Layout(body)|;
      LeadsClosing(text, end, level, last);
      var p1, p2 := Between(at, level + 1, None, None), Between(end, level + 1, None, None);
      LeadsOn(text, p0, [NewSection(name.s)], p1, Events(Document(body)), p2);
      LeadsOn(text, p0, [NewSection(name.s)] + Events(Document(body)), p2, [LeavingSection],
              Between(end + |Filling(last)| + 1, level, None, None));
  }

  lemma ItemsParts(items: seq<Item>, inside: bool)
    requires LayoutOk(items, inside)
    ensures items == [] ==> Layout(items) == "" && Events(Document(items)) == []
    ensures items != [] ==>
              && LayoutOk([items[0]], inside) && LayoutOk(items[1..], inside)
              && Layout(items) == ItemText(items[0]) + Layout(items[1..])
              && Events(Document(items)) == EventsOf(NodeOf(items[0])) + Events(Document(items[1..]))
  {
    if items != [] {
      assert Document(items)[1..] == Document(items[1..]);
    }
  }

  lemma {:induction false} LeadsItems(text: string, pos: nat, level: nat, items: seq<Item>)
    requires Has(text, pos, Layout(items)) && LayoutOk(items, level > 0)
    ensures Leads(text, Between(pos, level, None, None), Events(Document(items)),
                  Between(pos + |Layout(items)|, level, None, None))
    decreases items
  {
    hide Leads, Has, Layout, ItemText, Document, NodeOf, Events, EventsOf, LayoutOk;
    var p0 := Between(pos, level, None, None);
    HasInside(text, pos, Layout(items));
    ItemsParts(items, level > 0);
    if items == [] {
      LeadsNowhere(text, p0);
    } else {
      var rest := items[1..];
      HasParts(text, pos, ItemText(items[0]), Layout(rest));
      LeadsItem(text, pos, level, items[0]);
      var p1 := Between(pos + |ItemText(items[0])|, level, None, None);
      LeadsItems(text, p1.pos, level, rest);
      LeadsOn(text, p0, EventsOf(NodeOf(items[0])), p1, Events(Document(rest)),
              Between(p1.pos + |Layout(rest)|, level, None, None));
    }
  }

  /** The layout does not matter: a document in quotes or words, with blanks and comments before its keys and sections,
      between keys and values, between names and openings, behind values, before endings and behind the last one, is
      parsed to exactly its own sections and keys. */
  lemma LayoutDoesNotMatter(items: seq<Item>, last: seq<Filler>)
    requires LayoutOk(items, false) && FillersOk(last)
    ensures Parse(Layout(items) + Filling(last), Start) == (Events(Document(items)), Okay)
  {
    hide Leads, LayoutOk, Layout, Document, Events, Parse, Filling, FillersOk;
    var text := Layout(items) + Filling(last);
    assert text[0..|text|] == text;
    HasParts(text, 0, Layout(items), Filling(last));
    LeadsItems(text, 0, 0, items);
    var p := Between(|Layout(items)|, 0, None, None);
    LeadsFillers(text, p.pos, 0, None, None, last);
    var q := Between(|text|, 0, None, None);
    LeadsOn(text, Start, Events(Document(items)), p, [], q);
    assert Events(Document(items)) + [] == Events(Document(items));
    LeadsEnd(text, Start, Events(Document(items)), q);
  }

  // ---------- What the layout must not do ----------

  /** A section cannot end on the line of a pair: the closing fails. */
  lemma ClosingBehindPair(text: string, pos: nat, level: nat, pair: Pair)
    requires Has(text, pos, PairText(pair) + "}") && PairOk(pair) && (pair.value.Bare? ==> pair.behind != [])
    ensures Parse(text, Between(pos, level, None, None)) == ([], InvalidSection3)
  {
    hide Leads, Has, TextOf, PairText, EndsLine, Parse;
    HasParts(text, pos, PairText(pair), "}");
    var at := pos + |PairText(pair)|;
    HasChar(text, at, "}", 0);
    HasInside(text, at, "}");
    var key, value := LeadsPair(text, pos, level, pair);
    LeadsEnd(text, Between(pos, level, None, None), [], Between(at, level, value, key));
  }

  /** A word as the name of a section must not touch its opening: the name then runs on to the end of the buffer. */
  lemma WordBeforeOpening(text: string, pos: nat, level: nat, name: string)
    requires TokenOk(Bare(name), false) && Has(text, pos, name + "{")
    ensures Leads(text, Between(pos, level, None, None), [NewSection(text[pos..])],
                  Between(pos + |name| + 1, level + 1, None, None))
  {
    hide Leads, Has;
    HasParts(text, pos, name, "{");
    HasChar(text, pos + |name|, "{", 0);
    HasInside(text, pos + |name|, "{");
    LeadsToken(text, pos, level, None, Bare(name));
    var q := Behind(pos, level, None, Bare(name));
    LeadsStep(text, q);
    assert text[pos..|text|] == text[pos..];
    LeadsQuietly(text, Between(pos, level, None, None), q, [NewSection(text[pos..])],
                 Between(pos + |name| + 1, level + 1, None, None));
  }

  /** A comment over several lines must not begin with a slash: it ends at once. */
  lemma SlashEndsBlock(text: string, pos: nat, level: nat, s1: Option<Staged>, s2: Option<Staged>)
    requires Has(text, pos, "/*/")
    ensures Leads(text, Between(pos, level, s1, s2), [], Between(pos + 3, level, s1, s2))
  {
    hide Leads;
    HasChars(text, pos, "/*/");
    LeadsBlock(text, pos, level, s1, s2, pos + 1);
  }

  /** Behind a document, or inside of one, an opening without a name fails, a text that ends inside a section, and a
      closing outside of all sections. */
  lemma UnfinishedFails(text: string, pos: nat, level: nat)
    requires pos <= |text|
    ensures pos < |text| && text[pos] == '{' ==> Parse(text, Between(pos, level, None, None)) == ([], InvalidSection2)
    ensures pos == |text| && level > 0 ==> Parse(text, Between(pos, level, None, None)) == ([], InvalidSection5)
    ensures pos < |text| && text[pos] == '}' && level == 0 ==>
              Parse(text, Between(pos, level, None, None)) == ([], InvalidSection4)
  {
  }

  /** Outside of all sections a pair fails, whatever its layout. */
  lemma PairOutsideFails(text: string, pos: nat, pair: Pair, end: LineEnd)
    requires Has(text, pos, PairText(pair) + EndText(end)) && PairOk(pair) && EndOk(end)
    ensures Parse(text, Between(pos, 0, None, None)) == ([], InvalidProperty1)
  {
    hide Leads, Has, TextOf, PairText, PairOk, EndsLine, Parse, EndText, EndOk;
    HasParts(text, pos, PairText(pair), EndText(end));
    var p, at := Between(pos, 0, None, None), pos + |PairText(pair)|;
    EndEndsLine(text, at, end);
    var key, value := LeadsPair(text, pos, 0, pair);
    var q := LineEndFails(text, at, key, value, end);
    LeadsQuietly(text, p, Between(at, 0, value, key), [], q);
    LeadsEnd(text, p, [], q);
  }

  lemma LineEndFails(text: string, pos: nat, key: Option<Staged>, value: Option<Staged>, end: LineEnd)
    returns (q: Parser)
    requires EndOk(end) && Has(text, pos, EndText(end)) && key.Some?
    ensures Leads(text, Between(pos, 0, value, key), [], q)
    ensures q.pos < |text| && StepAt(text, q) == Fail(InvalidProperty1)
  {
    hide Leads, Has, TextOf;
    HasInside(text, pos, EndText(end));
    match end
    case Newline =>
      HasChar(text, pos, "\n", 0);
      q := Between(pos, 0, value, key);
      LeadsNowhere(text, q);
    case Comment(slashes, comment) =>
      LeadsComment(text, pos, 0, value, key, slashes, comment);
      q := Parser(pos + |EndText(end)| - 1, 0, false, true, false, None, value, key);
  }
}
