/**
 What the formatter's directives write (amxmodx/format.cpp), read back: a directive is read as it is meant,
 and numbers, most significant digit first, have the value and the sign of their parameter.
 */
module FormatNumbers {
  import opened Basics
  import opened Format
  import opened FormatText
  import opened FormatLaws

  // ---------- Reading numerals ----------

  const DECIMAL := "0123456789"
  const BINARY := "01"
  const HEX := "0123456789abcdef"
  const UPPER_HEX := "0123456789ABCDEF"

  /** The place of a character in a list of digits. */
  function Place(c: char, digits: string): (r: nat)
    ensures r <= |digits| && (c in digits <==> r < |digits|)
  {
    if digits == "" then 0 else if digits[0] == c then 0 else 1 + Place(c, digits[1..])
  }

  predicate IsDecimal(c: char) {
    c in DECIMAL
  }

  predicate AllDecimal(text: string) {
    forall i :: 0 <= i < |text| ==> text[i] in DECIMAL
  }

  /** The value of a numeral, its most significant digit first. */
  function Reading(text: string, digits: string): nat {
    if text == "" then 0
    else Reading(text[..|text| - 1], digits) * |digits| + Place(text[|text| - 1], digits)
  }

  /** Digits, at least one, and no zero before others. */
  ghost predicate IsNumeral(text: string, digits: string) {
    && text != "" && digits != "" && (forall i :: 0 <= i < |text| ==> text[i] in digits)
    && (|text| > 1 ==> text[0] != digits[0])
  }

  /** The digits that the formatter uses. */
  function DigitsFor(base: nat, upper: bool): string
    requires base <= 16
  {
    if upper then UPPER_HEX[..base] else HEX[..base]
  }

  lemma {:induction false} PlaceAt(digits: string, k: nat)
    requires k < |digits| && forall i, j :: 0 <= i < j < |digits| ==> digits[i] != digits[j]
    ensures Place(digits[k], digits) == k
  {
    if k > 0 {
      PlaceAt(digits[1..], k - 1);
    }
  }

  lemma ListedAt(i: nat)
    requires i < 16
    ensures HEX[i] == DigitOf(i, false) && UPPER_HEX[i] == DigitOf(i, true)
  {
  }

  lemma DigitAt(d: nat, base: nat, upper: bool)
    requires d < base <= 16
    ensures DigitOf(d, upper) == DigitsFor(base, upper)[d] && Place(DigitOf(d, upper), DigitsFor(base, upper)) == d
    ensures DigitOf(d, upper) in DigitsFor(base, upper) && (DigitOf(d, upper) == '0' <==> d == 0)
  {
    var digits := DigitsFor(base, upper);
    forall i, j | 0 <= i < j < base ensures digits[i] != digits[j] {
      ListedAt(i);
      ListedAt(j);
    }
    ListedAt(d);
    PlaceAt(digits, d);
  }

  lemma ReadingMore(text: string, c: char, digits: string)
    ensures Reading(text + [c], digits) == Reading(text, digits) * |digits| + Place(c, digits)
  {
    assert (text + [c])[..|text|] == text;
  }

  /** One more digit behind a numeral that does not begin with a zero, or nothing. */
  lemma NumeralMore(text: string, c: char, base: nat, upper: bool, d: nat)
    requires d < base && 2 <= base <= 16 && c == DigitOf(d, upper)
    requires text == "" || (IsNumeral(text, DigitsFor(base, upper)) && text[0] != '0')
    ensures IsNumeral(text + [c], DigitsFor(base, upper))
    ensures text != "" || d > 0 ==> (text + [c])[0] != '0'
  {
    DigitAt(d, base, upper);
    DigitAt(0, base, upper);
    hide DigitsFor, DigitOf;
    assert DigitsFor(base, upper) != "" by {
      DigitsCount(base, upper);
    }
  }

  lemma DigitsCount(base: nat, upper: bool)
    requires base <= 16
    ensures |DigitsFor(base, upper)| == base
  {
  }

  lemma ReversedFirst(c: char, tail: string)
    ensures Reversed([c] + tail) == Reversed(tail) + [c] && (tail == "" ==> Reversed(tail) == "")
  {
    assert ([c] + tail)[1..] == tail;
  }

  /** The digits of a number, turned round, are its numeral. */
  lemma {:induction false} DigitsRead(v: nat, base: nat, upper: bool)
    requires 2 <= base <= 16
    ensures var text, digits := Reversed(Digits(v, base, upper)), DigitsFor(base, upper);
            Reading(text, digits) == v && IsNumeral(text, digits) && (v > 0 ==> text[0] != '0')
  {
    hide Reading, IsNumeral, DigitsFor, DigitOf, Reversed;
    var d, rest, digits := LastDigit(v, base), Shorter(v, base), DigitsFor(base, upper);
    var c, tail := DigitOf(d, upper), if rest == 0 then "" else Digits(rest, base, upper);
    Division(v, base);
    DigitAt(d, base, upper);
    DigitsCount(base, upper);
    if rest > 0 {
      DigitsRead(rest, base, upper);
    } else {
      NothingReadsIn(digits);
    }
    assert Digits(v, base, upper) == [c] + tail;
    ReversedFirst(c, tail);
    ReadingMore(Reversed(tail), c, digits);
    NumeralMore(Reversed(tail), c, base, upper, d);
  }

  lemma NothingReadsIn(digits: string)
    ensures Reading("", digits) == 0
  {
  }

  // ---------- What number directives write ----------

  /** The text is that of the parameter as the directive names it: a signed number with a minus exactly if it is
      negative, or an unsigned one in base 10, 2 or 16. */
  ghost predicate ReadsAs(text: string, ch: char, v: int) {
    if ch == 'u' then IsNumeral(text, DECIMAL) && Reading(text, DECIMAL) == v % 0x1_0000_0000
    else if ch == 'b' then IsNumeral(text, BINARY) && Reading(text, BINARY) == v % 0x1_0000_0000
    else if ch == 'x' then IsNumeral(text, HEX) && Reading(text, HEX) == v % 0x1_0000_0000
    else if ch == 'X' then IsNumeral(text, UPPER_HEX) && Reading(text, UPPER_HEX) == v % 0x1_0000_0000
    else
      && (ch == 'd' || ch == 'i')
      && if Signed(v) < 0 then
           text != "" && text[0] == '-' && IsNumeral(text[1..], DECIMAL) && Reading(text[1..], DECIMAL) == -Signed(v)
         else IsNumeral(text, DECIMAL) && Reading(text, DECIMAL) == Signed(v)
  }

  /** The signed number of a cell: the one among the 32-bit numbers that differs from it by words. */
  lemma SignedIs(v: int)
    ensures -0x8000_0000 <= Signed(v) < 0x8000_0000 && (v - Signed(v)) % 0x1_0000_0000 == 0
  {
  }

  lemma ReversedMore(s: string, c: char)
    ensures Reversed(s + [c]) == [c] + Reversed(s)
  {
    if s != "" {
      ReversedMore(s[1..], c);
      assert (s + [c])[1..] == s[1..] + [c];
    } else {
      assert Reversed([c]) == Reversed([c][1..]) + [c];
    }
  }

  lemma UnsignedReads(ch: char, v: int)
    requires ch in "ubxX"
    ensures ReadsAs(NumberText(ch, v), ch, v)
  {
    hide Digits, Reversed, Reading, IsNumeral, DigitsFor;
    DigitLists();
    DigitsRead(Unsigned(v), if ch == 'u' then 10 else if ch == 'b' then 2 else 16, ch == 'X');
  }

  lemma SignedReads(ch: char, v: int)
    requires ch == 'd' || ch == 'i'
    ensures ReadsAs(NumberText(ch, v), ch, v)
  {
    hide Digits, Reversed, Reading, IsNumeral, DigitsFor, Signed;
    DigitLists();
    var n := if Signed(v) < 0 then -Signed(v) else Signed(v);
    var digits := Digits(n, 10, false);
    DigitsRead(n, 10, false);
    ReversedMore(digits, '-');
    assert (['-'] + Reversed(digits))[1..] == Reversed(digits);
  }

  lemma NumberReads(ch: char, v: int)
    requires IsNumber(ch)
    ensures ReadsAs(NumberText(ch, v), ch, v)
  {
    hide ReadsAs, NumberText;
    if ch == 'd' || ch == 'i' {
      SignedReads(ch, v);
    } else {
      UnsignedReads(ch, v);
    }
  }

  lemma DigitLists()
    ensures DigitsFor(2, false) == BINARY && DigitsFor(10, false) == DECIMAL
    ensures DigitsFor(16, false) == HEX && DigitsFor(16, true) == UPPER_HEX
  {
  }

  // ---------- Directives are read as they are meant ----------

  /** A directive as it is written: adjusted to the left or not, with zeros or not, the numeral of its width or
      nothing, the numeral of its precision if it has one, and its character. */
  datatype Written = Written(left: bool, zero: bool, width: string, prec: Option<string>, ch: char)

  function TextOf(w: Written): string {
    "%" + (if w.left then "-" else "") + (if w.zero then "0" else "") + w.width
    + (if w.prec.Some? then "." + w.prec.value else "") + [w.ch]
  }

  /** Numerals of 31 bits, without a zero before the width, and a character that is none of the others. */
  ghost predicate WrittenOk(w: Written) {
    && (w.width == "" || (IsNumeral(w.width, DECIMAL) && w.width[0] != '0' && Reading(w.width, DECIMAL) < 0x8000_0000))
    && (w.prec.Some? ==> IsNumeral(w.prec.value, DECIMAL) && Reading(w.prec.value, DECIMAL) < 0x8000_0000)
    && w.ch != '-' && w.ch != '.' && !IsDecimal(w.ch)
  }

  lemma DecimalDigit(c: char)
    ensures c in DECIMAL <==> IsDigit(c)
    ensures IsDigit(c) ==> Place(c, DECIMAL) == c as int - '0' as int
  {
    if IsDigit(c) {
      var d := c as int - '0' as int;
      DigitLists();
      DigitAt(d, 10, false);
    }
  }

  lemma {:induction false} ReadingGrows(text: string, digits: string, k: nat)
    requires k <= |text| && digits != ""
    ensures Reading(text[..k], digits) <= Reading(text, digits)
    decreases |text|
  {
    if k < |text| {
      ReadingGrows(text[..|text| - 1], digits, k);
      assert text[..|text| - 1][..k] == text[..k];
      Grown(Reading(text[..|text| - 1], digits), |digits|);
    } else {
      assert text[..k] == text;
    }
  }

  lemma Grown(n: nat, base: nat)
    requires base > 0
    ensures n <= n * base
  {
  }

  lemma ReadingStep(text: string, k: nat)
    requires 0 < k <= |text|
    ensures Reading(text[..k], DECIMAL) == Reading(text[..k - 1], DECIMAL) * 10 + Place(text[k - 1], DECIMAL)
    ensures Reading(text[..k], DECIMAL) <= Reading(text, DECIMAL)
  {
    hide Reading, Place;
    assert text[..k] == text[..k - 1] + [text[k - 1]];
    ReadingMore(text[..k - 1], text[k - 1], DECIMAL);
    ReadingGrows(text, DECIMAL, k);
  }

  lemma NextDigit(fmt: string, pos: nat, n: nat)
    requires pos < |fmt| && fmt[pos] in DECIMAL && n * 10 + Place(fmt[pos], DECIMAL) < 0x8000_0000
    ensures NumberAt(fmt, pos, n) == NumberAt(fmt, pos + 1, n * 10 + Place(fmt[pos], DECIMAL))
  {
    hide Place, Signed;
    DecimalDigit(fmt[pos]);
    SmallIsSigned(n * 10 + Place(fmt[pos], DECIMAL));
  }

  /** After k digits the number read is that of these digits. */
  lemma {:induction false} NumberReadTo(fmt: string, pos: nat, text: string, k: nat)
    requires k <= |text| && pos + |text| <= |fmt| && fmt[pos..pos + |text|] == text
    requires Reading(text, DECIMAL) < 0x8000_0000 && AllDecimal(text)
    ensures NumberAt(fmt, pos, 0) == NumberAt(fmt, pos + k, Reading(text[..k], DECIMAL))
  {
    hide Place, NumberAt, Reading;
    if k == 0 {
      NothingReads();
    } else {
      NumberReadTo(fmt, pos, text, k - 1);
      assert fmt[pos + (k - 1)] == fmt[pos..pos + |text|][k - 1] == text[k - 1];
      ReadingStep(text, k);
      NextDigit(fmt, pos + (k - 1), Reading(text[..k - 1], DECIMAL));
    }
  }

  lemma NothingReads()
    ensures Reading("", DECIMAL) == 0
  {
    NothingReadsIn(DECIMAL);
  }

  lemma SmallIsSigned(n: nat)
    requires n < 0x8000_0000
    ensures Signed(n) == n
  {
  }

  lemma NumberStops(fmt: string, pos: nat, n: nat)
    requires pos < |fmt| && !IsDecimal(fmt[pos])
    ensures NumberAt(fmt, pos, n) == (n, pos)
  {
    hide Place;
    DecimalDigit(fmt[pos]);
  }

  lemma NumberReadOff(fmt: string, pos: nat, text: string)
    requires pos + |text| < |fmt| && fmt[pos..pos + |text|] == text && !IsDecimal(fmt[pos + |text|])
    requires Reading(text, DECIMAL) < 0x8000_0000 && AllDecimal(text)
    ensures NumberAt(fmt, pos, 0) == (Reading(text, DECIMAL), pos + |text|)
  {
    hide Reading, Place, NumberAt, IsDigit, AllDecimal, IsDecimal;
    NumberReadTo(fmt, pos, text, |text|);
    assert text[..|text|] == text;
    NumberStops(fmt, pos + |text|, Reading(text, DECIMAL));
  }

  /** The text stands in the format at a position. */
  predicate StandsIn(fmt: string, pos: nat, text: string) {
    pos + |text| <= |fmt| && fmt[pos..pos + |text|] == text
  }

  lemma StandSplit(fmt: string, pos: nat, a: string, b: string)
    requires StandsIn(fmt, pos, a + b)
    ensures StandsIn(fmt, pos, a) && StandsIn(fmt, pos + |a|, b)
  {
    assert fmt[pos..pos + |a|] == (a + b)[..|a|] == a;
    assert fmt[pos + |a|..pos + |a + b|] == (a + b)[|a|..] == b;
  }

  lemma FlagRead(fmt: string, pos: nat, d: Spec, on: bool, flag: char)
    requires flag == '-' || flag == '0'
    requires StandsIn(fmt, pos, if on then [flag] else "")
    ensures Directive(fmt, pos, d)
         == Directive(fmt, pos + (if on then 1 else 0),
                      if !on then d else if flag == '-' then d.(left := true) else d.(zero := true))
  {
    if on {
      assert fmt[pos] == fmt[pos..pos + 1][0];
    }
  }

  lemma NumeralRead(fmt: string, pos: nat, text: string)
    requires StandsIn(fmt, pos, text) && IsNumeral(text, DECIMAL) && Reading(text, DECIMAL) < 0x8000_0000
    requires pos + |text| < |fmt| && !IsDecimal(fmt[pos + |text|])
    ensures NumberAt(fmt, pos, 0) == (Reading(text, DECIMAL), pos + |text|)
    ensures fmt[pos] == text[0] && IsDigit(text[0])
  {
    hide Reading, Place, NumberAt, IsDigit, IsDecimal;
    NumberReadOff(fmt, pos, text);
    assert fmt[pos] == fmt[pos..pos + |text|][0];
    DecimalDigit(text[0]);
  }

  lemma WidthRead(fmt: string, pos: nat, d: Spec, text: string)
    requires StandsIn(fmt, pos, text) && pos + |text| < |fmt| && !IsDecimal(fmt[pos + |text|])
    requires text == "" || (IsNumeral(text, DECIMAL) && text[0] != '0' && Reading(text, DECIMAL) < 0x8000_0000)
    ensures Directive(fmt, pos, d)
         == Directive(fmt, pos + |text|, if text == "" then d else d.(width := Reading(text, DECIMAL)))
  {
    hide Reading, NumberAt, IsNumeral, IsDecimal;
    if text != "" {
      NumeralRead(fmt, pos, text);
    }
  }

  lemma PrecisionRead(fmt: string, pos: nat, d: Spec, text: string)
    requires StandsIn(fmt, pos, "." + text) && pos + 1 + |text| < |fmt| && !IsDecimal(fmt[pos + 1 + |text|])
    requires IsNumeral(text, DECIMAL) && Reading(text, DECIMAL) < 0x8000_0000
    ensures Directive(fmt, pos, d) == Directive(fmt, pos + 1 + |text|, d.(prec := Reading(text, DECIMAL)))
  {
    hide Reading, NumberAt, IsNumeral, IsDecimal;
    StandSplit(fmt, pos, ".", text);
    assert fmt[pos] == fmt[pos..pos + 1][0];
    NumeralRead(fmt, pos + 1, text);
  }

  lemma CharacterRead(fmt: string, pos: nat, d: Spec, ch: char)
    requires pos < |fmt| && fmt[pos] == ch && ch != '-' && ch != '.' && !IsDecimal(ch)
    ensures Directive(fmt, pos, d) == d.(ch := Some(ch), next := pos + 1)
  {
    DecimalDigit(ch);
    DecimalDigit('0');
  }

  /** What is asked for. */
  function SpecOf(w: Written, next: nat): Spec {
    Spec(w.left, w.zero, Reading(w.width, DECIMAL), if w.prec.Some? then Reading(w.prec.value, DECIMAL)
         else -1, Some(w.ch),
         next)
  }

  function PrecisionOf(w: Written): string {
    if w.prec.Some? then "." + w.prec.value else ""
  }

  lemma PointIsNone()
    ensures !IsDecimal('.')
  {
    DecimalDigit('.');
  }

  lemma WidthEnds(fmt: string, pos: nat, w: Written)
    requires !IsDecimal(w.ch) && StandsIn(fmt, pos, PrecisionOf(w) + [w.ch])
    ensures pos < |fmt| && !IsDecimal(fmt[pos])
  {
    hide IsDecimal, StandsIn;
    PointIsNone();
    StandFirst(fmt, pos, PrecisionOf(w) + [w.ch]);
  }

  /** The directive from its width on: its parts. */
  lemma RestParts(fmt: string, pos: nat, w: Written)
    requires !IsDecimal(w.ch) && StandsIn(fmt, pos, w.width + (PrecisionOf(w) + [w.ch]))
    ensures var behind := pos + |w.width|;
            var last := behind + |PrecisionOf(w)|;
            && StandsIn(fmt, pos, w.width) && StandsIn(fmt, behind, PrecisionOf(w))
            && behind < |fmt| && !IsDecimal(fmt[behind]) && last < |fmt| && fmt[last] == w.ch
  {
    hide StandsIn, IsDecimal, PrecisionOf;
    var behind := pos + |w.width|;
    StandSplit(fmt, pos, w.width, PrecisionOf(w) + [w.ch]);
    StandSplit(fmt, behind, PrecisionOf(w), [w.ch]);
    WidthEnds(fmt, behind, w);
    StandFirst(fmt, behind + |PrecisionOf(w)|, [w.ch]);
  }

  lemma TailRead(fmt: string, pos: nat, d: Spec, w: Written)
    requires WrittenOk(w) && StandsIn(fmt, pos, PrecisionOf(w)) && d.prec == -1
    requires pos + |PrecisionOf(w)| < |fmt| && fmt[pos + |PrecisionOf(w)|] == w.ch
    ensures Directive(fmt, pos, d)
         == d.(prec := if w.prec.Some? then Reading(w.prec.value, DECIMAL) else -1, ch := Some(w.ch),
               next := pos + |PrecisionOf(w)| + 1)
  {
    hide Directive, Reading, IsNumeral, StandsIn, IsDecimal;
    if w.prec.Some? {
      PrecisionRead(fmt, pos, d, w.prec.value);
      CharacterRead(fmt, pos + |PrecisionOf(w)|, d.(prec := Reading(w.prec.value, DECIMAL)), w.ch);
    } else {
      CharacterRead(fmt, pos, d, w.ch);
    }
  }

  /** The directive from its width on. */
  lemma RestRead(fmt: string, pos: nat, w: Written)
    requires WrittenOk(w) && StandsIn(fmt, pos, w.width + (PrecisionOf(w) + [w.ch]))
    ensures Directive(fmt, pos, Plain.(left := w.left, zero := w.zero))
         == SpecOf(w, pos + |w.width| + |PrecisionOf(w)| + 1)
  {
    hide Directive, Reading, StandsIn, PrecisionOf, IsNumeral, WrittenOk;
    var d := Plain.(left := w.left, zero := w.zero);
    WidthOk(w);
    RestParts(fmt, pos, w);
    WidthRead(fmt, pos, d, w.width);
    NothingReads();
    TailRead(fmt, pos + |w.width|, d.(width := Reading(w.width, DECIMAL)), w);
  }

  lemma WidthOk(w: Written)
    requires WrittenOk(w)
    ensures w.width == ""
            || (IsNumeral(w.width, DECIMAL) && w.width[0] != '0' && Reading(w.width, DECIMAL) < 0x8000_0000)
    ensures !IsDecimal(w.ch)
  {
  }

  lemma StandFirst(fmt: string, pos: nat, text: string)
    requires StandsIn(fmt, pos, text) && text != ""
    ensures pos + |text| <= |fmt| && fmt[pos] == text[0]
  {
    assert fmt[pos] == fmt[pos..pos + |text|][0];
  }

  lemma TextParts(w: Written) returns (left: string, zero: string, rest: string)
    ensures left == (if w.left then "-" else "") && zero == (if w.zero then "0" else "")
    ensures rest == w.width + (PrecisionOf(w) + [w.ch]) && TextOf(w) == "%" + (left + (zero + rest))
    ensures |TextOf(w)| == 1 + |left| + |zero| + |w.width| + |PrecisionOf(w)| + 1
  {
    left, zero := if w.left then "-" else "", if w.zero then "0" else "";
    rest := w.width + (PrecisionOf(w) + [w.ch]);
  }

  /** A directive is read as it is meant, wherever it stands in a format. */
  lemma DirectiveReads(fmt: string, pos: nat, w: Written)
    requires WrittenOk(w) && StandsIn(fmt, pos, TextOf(w))
    ensures pos < |fmt| && fmt[pos] == '%' && Directive(fmt, pos + 1, Plain) == SpecOf(w, pos + |TextOf(w)|)
  {
    hide Directive, Reading, StandsIn, WrittenOk, TextOf, PrecisionOf;
    var left, zero, rest := TextParts(w);
    StandFirst(fmt, pos, TextOf(w));
    StandSplit(fmt, pos, "%", left + (zero + rest));
    StandSplit(fmt, pos + 1, left, zero + rest);
    StandSplit(fmt, pos + 1 + |left|, zero, rest);
    FlagRead(fmt, pos + 1, Plain, w.left, '-');
    FlagRead(fmt, pos + 1 + |left|, Plain.(left := w.left), w.zero, '0');
    RestRead(fmt, pos + 1 + |left| + |zero|, w);
  }

  // ---------- What comes of them ----------

  predicate AllOf(text: string, c: char) {
    forall i :: 0 <= i < |text| ==> text[i] == c
  }

  /** The field of a number: padding before or behind it, up to the width. A number adjusted to the left that is longer
      than its width gets padding for all the room there is. */
  ghost predicate InField(field: string, text: string, w: Written, room: nat) {
    && |field| >= |text|
    && var width, pad := Reading(w.width, DECIMAL), if w.zero then '0' else ' ';
       if !w.left then
         && field[|field| - |text|..] == text && AllOf(field[..|field| - |text|], pad)
         && |field| == Max(|text|, width)
       else
         && field[..|text|] == text && AllOf(field[|text|..], pad)
         && |field| == if |text| <= width then width else Max(|text|, room)
  }

  lemma {:induction false} RepeatAll(c: char, n: int)
    ensures AllOf(Repeat(c, n), c)
  {
    if n > 0 {
      RepeatAll(c, n - 1);
    }
  }

  lemma FieldPlaces(text: string, w: Written, next: nat, room: nat)
    ensures InField(NumberField(text, SpecOf(w, next), room), text, w, room)
  {
    hide Reading, Repeat;
    var pad, field := if w.zero then '0' else ' ', NumberField(text, SpecOf(w, next), room);
    var n := Reading(w.width, DECIMAL) - |text|;
    RepeatAll(pad, n);
    RepeatAll(pad, room - |text|);
    if !w.left {
      assert field[|field| - |text|..] == text && field[..|field| - |text|] == Repeat(pad, n);
    } else {
      assert field[..|text|] == text;
      assert field[|text|..] == if n >= 0 then Repeat(pad, n) else Repeat(pad, room - |text|);
    }
  }

  /** A number directive, wherever it stands, writes a text that reads as its parameter, in the field that it asks for,
      as far as there is room; and the format goes on behind it with the next parameter. */
  lemma NumberIsWritten(env: Env, params: seq<Param>, fmt: string, pos: nat, arg: nat, before: string, out: string,
                        max: nat, w: Written)
    returns (text: string, field: string)
    requires WrittenOk(w) && StandsIn(fmt, pos, TextOf(w)) && IsNumber(w.ch)
    requires |out| < max && 1 <= arg <= |params|
    ensures ReadsAs(text, w.ch, params[arg - 1].value) && InField(field, text, w, max - |out|)
    ensures Fmt(env, params, fmt, pos, arg, before, out, max)
         == Fmt(env, params, fmt, pos + |TextOf(w)|, arg + 1, before, out + Take(field, max - |out|), max)
  {
    hide Fmt, NumberText, NumberField, ReadsAs, InField, WrittenOk, StandsIn, TextOf, Directive, Reading;
    var next, v := pos + |TextOf(w)|, params[arg - 1].value;
    DirectiveReads(fmt, pos, w);
    text := NumberText(w.ch, v);
    field := NumberField(text, SpecOf(w, next), max - |out|);
    NumberReads(w.ch, v);
    FieldPlaces(text, w, next, max - |out|);
    FmtDirective(env, params, fmt, pos, arg, before, out, max);
  }

  /** The directive alone: "%d", "%i", "%u", "%b", "%x" or "%X", with room for every number. */
  lemma NumberAlone(env: Env, params: seq<Param>, ch: char, arg: nat, before: string, max: nat) returns (text: string)
    requires IsNumber(ch) && 1 <= arg <= |params| && max >= 32
    ensures Fmt(env, params, "%" + [ch], 0, arg, before, "", max) == Done(text, arg + 1)
    ensures ReadsAs(text, ch, params[arg - 1].value)
  {
    hide Fmt, NumberText, NumberField, ReadsAs, Directive, Ended, SevenBit;
    var fmt, v := "%" + [ch], params[arg - 1].value;
    text := NumberText(ch, v);
    var d := Plain.(ch := Some(ch), next := 2);
    CharacterAlone(fmt, ch);
    NumberReads(ch, v);
    DigitsFit(ch, v);
    BareField(text, d, max);
    NumberTextSeven(ch, v);
    FmtDirective(env, params, fmt, 0, arg, before, "", max);
    assert "" + text == text;
    FmtEnds(env, params, fmt, 2, arg + 1, before, text, max);
    EndedSeven(before, text, max, arg + 1);
  }

  lemma CharacterAlone(fmt: string, ch: char)
    requires fmt == "%" + [ch] && ch != '-' && ch != '.' && !IsDigit(ch)
    ensures Directive(fmt, 1, Plain) == Plain.(ch := Some(ch), next := 2)
  {
  }

  lemma BareField(text: string, d: Spec, room: nat)
    requires !d.left && d.width == 0 && |text| <= room
    ensures NumberField(text, d, room) == text && Take(text, room) == text
  {
  }

  lemma EndedShort(before: string, out: string, max: nat, arg: nat)
    requires |out| < max
    ensures Ended(before, out, max, arg) == Done(out, arg)
  {
    assert out[..|out|] == out;
  }

  /** What the format with nothing but a directive gives. */
  lemma DirectiveAlone(env: Env, params: seq<Param>, ch: char, arg: nat, before: string, max: nat)
    requires ch != '-' && ch != '.' && !IsDigit(ch) && arg >= 1 && max > 0
    ensures var piece := Piece(env, params, Plain.(ch := Some(ch), next := 2), ch, arg, before, max);
            Fmt(env, params, "%" + [ch], 0, arg, before, "", max) ==
              match piece
              case Done(text, next) => if |text| < max then Done(text, next) else Ended(before, text, max, next)
              case Failed => Failed
              case _ => Lost
  {
    hide Fmt, Piece, Directive, Ended;
    var fmt := "%" + [ch];
    CharacterAlone(fmt, ch);
    FmtDirective(env, params, fmt, 0, arg, before, "", max);
    assert before + "" == before;
    var piece := Piece(env, params, Plain.(ch := Some(ch), next := 2), ch, arg, before, max);
    if piece.Done? {
      assert "" + piece.out == piece.out;
      FmtEnds(env, params, fmt, 2, piece.arg, before, piece.out, max);
      if |piece.out| < max {
        EndedShort(before, piece.out, max, piece.arg);
      }
    }
  }

  /** The string that a directive of this character is about. */
  ghost predicate NamesString(env: Env, p: Param, ch: char, s: Option<Str>) {
    || (ch == 's' && s == Some(p.str))
    || (ch == 'a' && s == p.handle)
    || (ch == 'n' && s == env.name(p.value))
    || (ch == 'N' && s == env.fullName(p.value))
  }

  /** "%s" writes the string at the parameter, "%a" that behind its handle, "%n" the name of the player and "%N" the
      name with its numbers; a handle or a player that is none is an error. */
  lemma StringAlone(env: Env, params: seq<Param>, ch: char, s: Option<Str>, arg: nat, before: string, max: nat)
    requires 1 <= arg <= |params| && max > 0
    requires NamesString(env, params[arg - 1], ch, s)
    ensures s.None? ==> Fmt(env, params, "%" + [ch], 0, arg, before, "", max) == Failed
    ensures s.Some? && |s.value.text| < max ==>
              Fmt(env, params, "%" + [ch], 0, arg, before, "", max) == Done(s.value.text, arg + 1)
  {
    hide Fmt;
    DirectiveAlone(env, params, ch, arg, before, max);
    if s.Some? && |s.value.text| < max {
      WholeString(s.value, Plain.(ch := Some(ch), next := 2), max);
    }
  }

  lemma WholeString(s: Str, d: Spec, room: nat)
    requires d.prec < 0 && d.width == 0 && |s.text| < room
    ensures StringField(s, d, room) == Some(s.text)
  {
    assert s.text[..|s.text|] == s.text && s.text + "" == s.text;
  }

  /** "%c" writes the lowest byte of its parameter. */
  lemma CharacterIsByte(env: Env, params: seq<Param>, arg: nat, before: string, max: nat)
    requires 1 <= arg <= |params| && max > 1
    ensures Fmt(env, params, "%c", 0, arg, before, "", max) == Done([(params[arg - 1].value % 256) as char], arg + 1)
  {
    hide Fmt;
    assert "%c" == "%" + ['c'];
    DirectiveAlone(env, params, 'c', arg, before, max);
  }

  /** A character that is no directive is written as it is, and takes no parameter. */
  lemma OtherIsItself(env: Env, params: seq<Param>, ch: char, arg: nat, before: string, max: nat)
    requires ch !in "-.0123456789bcdfiuxXsaNnLl" && arg >= 1 && max > 1
    ensures Fmt(env, params, "%" + [ch], 0, arg, before, "", max) == Done([ch], arg)
  {
    hide Fmt;
    assert !IsDigit(ch) by {
      DecimalDigit(ch);
    }
    DirectiveAlone(env, params, ch, arg, before, max);
  }

  /** A directive without the parameters it takes is an error. */
  lemma MissingFails(env: Env, params: seq<Param>, ch: char, arg: nat, before: string, max: nat)
    requires ch in "bcdfiuxXsaNnLl" && arg >= 1 && max > 0 && arg + (if ch == 'L' then 1 else 0) > |params|
    ensures Fmt(env, params, "%" + [ch], 0, arg, before, "", max) == Failed
  {
    hide Fmt, Converted, Translation;
    DirectiveAlone(env, params, ch, arg, before, max);
  }

  /** The language and the key that a translation directive names. */
  ghost predicate NamesTranslation(env: Env, params: seq<Param>, arg: nat, ch: char, lang: Option<string>,
                                   key: string) {
    && 1 <= arg <= |params|
    && if ch == 'L' then
         && arg + 1 <= |params| && key == params[arg].str.text
         && lang == (var l := env.playerLang(params[arg - 1].value);
                     if l.Some? then l else Some(params[arg - 1].str.text))
       else ch == 'l' && key == params[arg - 1].str.text && lang == env.fmtLang
  }

  lemma TranslationIs(env: Env, params: seq<Param>, arg: nat, ch: char, lang: Option<string>, key: string, text: string)
    requires NamesTranslation(env, params, arg, ch, lang, key)
    requires if env.translate(lang, key).Some? then text == env.translate(lang, key).value
             else text == "ML_NOTFOUND: " + key && |text| <= 254
    ensures (ch == 'L' || ch == 'l') && 1 <= arg && arg + ParamsOf(ch) - 1 <= |params|
    ensures Translation(env, params, arg, ch) == text
  {
  }

  lemma TranslationPiece(env: Env, params: seq<Param>, d: Spec, ch: char, arg: nat, mem: string, room: nat)
    requires (ch == 'L' || ch == 'l') && arg >= 1 && arg + ParamsOf(ch) - 1 <= |params| && room > 0
    ensures var inner := Fmt(env, params, Translation(env, params, arg, ch), 0, arg + ParamsOf(ch), mem, "", room);
            inner.Done? ==> Piece(env, params, d, ch, arg, mem, room) == inner
  {
    hide Fmt, Converted, Translation;
  }

  /** "%L" takes a player's number, or the name of a language, and a key; "%l" takes the key alone. The translation is
      itself a format for the parameters behind them. A key without one gives a text that names it. */
  lemma TranslationAlone(env: Env, params: seq<Param>, ch: char, arg: nat, before: string, max: nat,
                         lang: Option<string>,
                         key: string, text: string)
    requires max > 0 && NamesTranslation(env, params, arg, ch, lang, key)
    requires if env.translate(lang, key).Some? then text == env.translate(lang, key).value
             else text == "ML_NOTFOUND: " + key && |text| <= 254
    ensures var inner := Fmt(env, params, text, 0, arg + (if ch == 'L' then 2 else 1), before, "", max);
            inner.Done? && |inner.out| < max ==>
              Fmt(env, params, "%" + [ch], 0, arg, before, "", max) == inner
  {
    hide Fmt, Piece, Translation, NamesTranslation;
    TranslationIs(env, params, arg, ch, lang, key, text);
    DirectiveAlone(env, params, ch, arg, before, max);
    TranslationPiece(env, params, Plain.(ch := Some(ch), next := 2), ch, arg, before, max);
  }

  /** As many characters as the precision lets through, and spaces behind them up to the width. */
  ghost predicate InStringField(field: string, text: string, w: Written) {
    exists n: nat {:trigger text[..n]} ::
      && n <= |text| && n <= |field| && field[..n] == text[..n] && AllOf(field[n..], ' ')
      && n == (if w.prec.Some? && Reading(w.prec.value, DECIMAL) < |text| then Reading(w.prec.value, DECIMAL)
               else |text|)
      && |field| == Max(n, Reading(w.width, DECIMAL))
  }

  lemma StringPlaces(s: Str, w: Written, next: nat, room: nat) returns (field: string)
    requires SevenBit(s.text) && room > 0 && (w.prec.Some? ==> Reading(w.prec.value, DECIMAL) > 0 && s.text != "")
    ensures InStringField(field, s.text, w)
    ensures StringField(s, SpecOf(w, next), room).Some?
    ensures Take(StringField(s, SpecOf(w, next), room).value, room) == Take(field, room)
  {
    hide Reading, StringExcess, StringField, SevenBit, Take, Repeat;
    var d := SpecOf(w, next);
    var shown := Shown(s.text, d);
    FieldSeven(s, d, room);
    FieldCut(shown, d.width, room);
    RepeatAll(' ', d.width - |shown|);
    field := shown + Repeat(' ', d.width - |shown|);
    assert s.text[..|s.text|] == s.text;
    assert field[..|shown|] == shown == s.text[..|shown|] && field[|shown|..] == Repeat(' ', d.width - |shown|);
  }

  lemma StringPiece(env: Env, params: seq<Param>, d: Spec, ch: char, arg: nat, mem: string, room: nat, s: Str)
    requires 1 <= arg <= |params| && room > 0 && NamesString(env, params[arg - 1], ch, Some(s))
    requires StringField(s, d, room).Some?
    ensures Piece(env, params, d, ch, arg, mem, room) == Done(Take(StringField(s, d, room).value, room), arg + 1)
  {
    hide Fmt, StringField, Take;
  }

  /** A string directive, wherever it stands, writes its 7-bit string in the field that it asks for, as far as there is
      room, unless it asks for characters of which there are none. */
  lemma StringIsWritten(env: Env, params: seq<Param>, fmt: string, pos: nat, arg: nat, before: string, out: string,
                        max: nat, w: Written, s: Str)
    returns (field: string)
    requires WrittenOk(w) && StandsIn(fmt, pos, TextOf(w)) && |out| < max && 1 <= arg <= |params|
    requires NamesString(env, params[arg - 1], w.ch, Some(s)) && SevenBit(s.text)
    requires w.prec.Some? ==> Reading(w.prec.value, DECIMAL) > 0 && s.text != ""
    ensures InStringField(field, s.text, w)
    ensures Fmt(env, params, fmt, pos, arg, before, out, max)
         == Fmt(env, params, fmt, pos + |TextOf(w)|, arg + 1, before, out + Take(field, max - |out|), max)
  {
    hide Fmt, Piece, Take, StringField, InStringField, WrittenOk, StandsIn, TextOf, Directive, Reading, SevenBit,
      NamesString;
    var next := pos + |TextOf(w)|;
    DirectiveReads(fmt, pos, w);
    field := StringPlaces(s, w, next, max - |out|);
    StringPiece(env, params, SpecOf(w, next), w.ch, arg, before + out, max - |out|, s);
    FmtDirective(env, params, fmt, pos, arg, before, out, max);
  }
}
