/**
 What the formatter's output has in common with the texts and numbers that it is made of, and with
 the output in a shorter buffer.
 */
module FormatLaws {
  import opened Basics
  import opened Format
  import opened FormatText

  // ---------- Numbers are written as what they are ----------

  function DigitValue(c: char): int {
    if c <= '9' then c as int - '0' as int else if c <= 'F' then c as int - 'A' as int + 10
      else c as int - 'a' as int + 10
  }

  /** The value of a text, the last digit first. */
  function ValueOf(text: string, base: nat): int {
    if text == "" then 0 else DigitValue(text[0]) + base * ValueOf(text[1..], base)
  }

  lemma {:induction false} DigitsHaveValue(v: nat, base: nat, upper: bool)
    requires 2 <= base <= 16
    ensures ValueOf(Digits(v, base, upper), base) == v
  {
    var d, rest := LastDigit(v, base), Shorter(v, base);
    var tail := if rest == 0 then "" else Digits(rest, base, upper);
    Division(v, base);
    DigitValueOf(d, upper);
    if rest > 0 {
      DigitsHaveValue(rest, base, upper);
    }
    ValueMore(DigitOf(d, upper), tail, base, rest);
    assert Digits(v, base, upper) == [DigitOf(d, upper)] + tail;
  }

  lemma ValueMore(c: char, tail: string, base: nat, rest: nat)
    requires ValueOf(tail, base) == rest
    ensures ValueOf([c] + tail, base) == DigitValue(c) + rest * base
  {
    assert ([c] + tail)[1..] == tail;
  }

  lemma DigitValueOf(d: nat, upper: bool)
    requires d < 16
    ensures DigitValue(DigitOf(d, upper)) == d
  {
  }

  function Power(base: nat, n: nat): nat {
    if n == 0 then 1 else base * Power(base, n - 1)
  }

  lemma {:induction false} FewDigits(v: nat, base: nat, upper: bool, n: nat)
    requires 2 <= base <= 16 && n > 0 && v < Power(base, n)
    ensures |Digits(v, base, upper)| <= n
  {
    var rest := Shorter(v, base);
    Division(v, base);
    if rest > 0 {
      if n == 1 {
        assert Power(base, 1) == base * Power(base, 0) == base;
        Divided(v, base, rest, 1);
      } else {
        Divided(v, base, rest, Power(base, n - 1));
        FewDigits(rest, base, upper, n - 1);
      }
    }
  }

  lemma Divided(v: nat, base: nat, rest: nat, limit: nat)
    requires base >= 2 && v == rest * base + LastDigit(v, base) && v < base * limit
    ensures rest < limit
  {
  }

  /** No number needs more than the 32 places that are set aside for its digits. */
  lemma DigitsFit(ch: char, v: int)
    ensures |NumberText(ch, v)| <= 32
  {
    Powers();
    FewDigits(Unsigned(v), 2, false, 32);
    FewDigits(Unsigned(v), 10, false, 10);
    FewDigits(Unsigned(v), 16, false, 8);
    FewDigits(Unsigned(v), 16, true, 8);
    var n := Signed(v);
    FewDigits(if n < 0 then -n else n, 10, false, 10);
  }

  lemma Powers()
    ensures Power(2, 32) == WORD && Power(16, 8) == WORD && Power(10, 10) > WORD
  {
    assert Power(2, 8) == 256;
    PowerSum(2, 8, 8);
    PowerSum(2, 16, 16);
    assert Power(16, 4) == 65536;
    PowerSum(16, 4, 4);
    assert Power(10, 5) == 100000;
    PowerSum(10, 5, 5);
  }

  lemma {:induction false} PowerSum(base: nat, m: nat, n: nat)
    ensures Power(base, m + n) == Power(base, m) * Power(base, n)
  {
    if m > 0 {
      PowerSum(base, m - 1, n);
      Associates(base, Power(base, m - 1), Power(base, n));
    }
  }

  lemma Associates(a: int, b: int, c: int)
    ensures a * (b * c) == (a * b) * c
  {
  }

  function Max(a: int, b: int): int {
    if a < b then b else a
  }

  /** The field of a number is as wide as its digits and its width ask for, except that a number adjusted
      to the left whose digits exceed its width takes all the room there is. */
  lemma FieldIsAsWideAsAsked(text: string, d: Spec, room: nat)
    ensures var asked := Max(|text|, d.width);
            |Take(NumberField(text, d, room), room)| == (if asked < room then asked else room)
            <==> !d.left || |text| <= d.width || room <= |text|
  {
  }

  /** A number adjusted to the left without a width fills the buffer. */
  lemma LeftAdjustedFills(env: Env, params: seq<Param>, arg: nat, before: string, max: nat)
    requires 1 <= arg <= |params| && max > 0
    ensures var text := NumberText('d', params[arg - 1].value);
            Fmt(env, params, "%-d", 0, arg, before, "", max)
            == Done(Take(text + Repeat(' ', max - |text|), max), arg + 1)
  {
    hide Fmt, Directive, NumberText, Ended, NumberField, Take;
    var d := Plain.(left := true, ch := Some('d'), next := 3);
    var field := NumberField(NumberText('d', params[arg - 1].value), d, max);
    LeftDirective("%-d");
    FmtDirective(env, params, "%-d", 0, arg, before, "", max);
    NumberShows('d', params[arg - 1].value);
    LeftFills(NumberText('d', params[arg - 1].value), d, max);
    assert "" + Take(field, max) == Take(field, max);
    FmtEnds(env, params, "%-d", 3, arg + 1, before, Take(field, max), max);
    NumberSeven('d', params[arg - 1].value, d, max);
    TakeSeven(field, max);
    EndedSeven(before, Take(field, max), max, arg + 1);
  }

  lemma LeftDirective(fmt: string)
    requires fmt == "%-d"
    ensures Directive(fmt, 1, Plain) == Plain.(left := true, ch := Some('d'), next := 3)
  {
    assert Directive(fmt, 2, Plain.(left := true)) == Plain.(left := true, ch := Some('d'), next := 3);
  }

  lemma LeftFills(text: string, d: Spec, max: nat)
    requires d == Plain.(left := true, ch := Some('d'), next := 3) && text != ""
    ensures Take(NumberField(text, d, max), max) == Take(text + Repeat(' ', max - |text|), max)
  {
  }

  lemma NumberShows(ch: char, v: int)
    ensures NumberText(ch, v) != ""
  {
  }

  // ---------- Escaping ----------

  function Escape(s: string): string {
    if s == "" then "" else (if s[0] == '%' then "%%" else [s[0]]) + Escape(s[1..])
  }

  /** A text with its '%' doubled is written as the text, as far as there is room, whatever the
      parameters and translations. */
  lemma {:induction false} EscapedFrom(env: Env, params: seq<Param>, fmt: string, pos: nat, arg: nat, before: string,
                                       out: string, max: nat, s: string)
    requires pos <= |fmt| && |out| <= max && arg >= 1 && fmt[pos..] == Escape(s)
    ensures Fmt(env, params, fmt, pos, arg, before, out, max) == Ended(before, Take(out + s, max), max, arg)
    decreases |s|
  {
    hide Fmt, Ended;
    if s == "" {
      assert out + s == out;
      FmtEnds(env, params, fmt, pos, arg, before, out, max);
    } else if |out| == max {
      assert (out + s)[..max] == out;
      FmtEnds(env, params, fmt, pos, arg, before, out, max);
    } else {
      var n := if s[0] == '%' then 2 else 1;
      assert fmt[pos] == fmt[pos..][0] && fmt[pos + n..] == fmt[pos..][n..] == Escape(s[1..]);
      assert (out + [s[0]]) + s[1..] == out + s;
      EscapedFrom(env, params, fmt, pos + n, arg, before, out + [s[0]], max, s[1..]);
      if s[0] == '%' {
        assert fmt[pos + 1] == fmt[pos..][1] == '%';
        PercentPiece(env, params, fmt, pos, arg, before, out, max);
      } else {
        FmtCharacter(env, params, fmt, pos, arg, before, out, max);
      }
    }
  }

  lemma PercentPiece(env: Env, params: seq<Param>, fmt: string, pos: nat, arg: nat, before: string, out: string,
                     max: nat)
    requires pos + 1 < |fmt| && fmt[pos] == '%' && fmt[pos + 1] == '%' && |out| < max && arg >= 1
    ensures Fmt(env, params, fmt, pos, arg, before, out, max)
         == Fmt(env, params, fmt, pos + 2, arg, before, out + ['%'], max)
  {
  }

  lemma EscapedIsLiteral(env: Env, params: seq<Param>, s: string, arg: nat, before: string, max: nat)
    requires arg >= 1
    ensures Fmt(env, params, Escape(s), 0, arg, before, "", max) == Ended(before, Take(s, max), max, arg)
  {
    assert Escape(s)[0..] == Escape(s);
    EscapedFrom(env, params, Escape(s), 0, arg, before, "", max, s);
    assert "" + s == s;
  }

  /** Of a text of whole characters, those are written that fit. */
  lemma EscapedKeepsWholeCharacters(env: Env, params: seq<Param>, chars: seq<string>, arg: nat, before: string,
                                    max: nat)
    requires AllWhole(chars) && arg >= 1 && (max == 0 ==> Excess(before) == 0)
    ensures Fmt(env, params, Escape(Joined(chars)), 0, arg, before, "", max)
         == Done(Joined(chars[..Fitting(chars, max)]), arg)
  {
    EscapedIsLiteral(env, params, Joined(chars), arg, before, max);
    EndKeepsWholeCharacters(chars, before, max, arg);
  }

  // ---------- Shorter buffers ----------

  /** No directive fails, neither in the format nor in a translation. */
  predicate NoErrors(env: Env, params: seq<Param>, fmt: string, pos: nat, arg: nat, before: string, out: string,
                     max: nat)
    requires pos <= |fmt| && |out| <= max && arg >= 1
    decreases Unread(params, arg), |fmt| - pos + 1
  {
    if pos == |fmt| || |out| == max then true
    else if fmt[pos] != '%' then NoErrors(env, params, fmt, pos + 1, arg, before, out + [fmt[pos]], max)
    else
      var d := Directive(fmt, pos + 1, Plain);
      d.ch.Some? ==>
        var ch := d.ch.value;
        var mem, room := before + out, max - |out|;
        var piece := Piece(env, params, d, ch, arg, mem, room);
        && piece.Done?
        && ((ch == 'L' || ch == 'l') && arg + ParamsOf(ch) - 1 <= |params| ==>
              NoErrors(env, params, Translation(env, params, arg, ch), 0, arg + ParamsOf(ch), mem, "", room))
        && NoErrors(env, params, fmt, d.next, piece.arg, before, out + piece.out, max)
  }

  /** 7-bit text, a way without errors, and room or nothing broken before the buffer. */
  ghost predicate Smooth(env: Env, params: seq<Param>, fmt: string, pos: nat, arg: nat, before: string, out: string,
                         max: nat)
    requires pos <= |fmt| && |out| <= max && arg >= 1
  {
    && SevenBitTexts(env, params) && SevenBit(fmt) && SevenBit(out) && (max == 0 ==> Excess(before) == 0)
    && NoErrors(env, params, fmt, pos, arg, before, out, max)
  }

  lemma {:induction false} SmoothIsDone(env: Env, params: seq<Param>, fmt: string, pos: nat, arg: nat, before: string,
                                        out: string, max: nat)
    requires pos <= |fmt| && |out| <= max && arg >= 1 && Smooth(env, params, fmt, pos, arg, before, out, max)
    ensures Fmt(env, params, fmt, pos, arg, before, out, max).Done?
    ensures out <= Fmt(env, params, fmt, pos, arg, before, out, max).out
    decreases Unread(params, arg), |fmt| - pos + 1
  {
    if pos == |fmt| || |out| == max {
      EndedSeven(before, out, max, arg);
    } else if fmt[pos] != '%' {
      SmoothIsDone(env, params, fmt, pos + 1, arg, before, out + [fmt[pos]], max);
    } else {
      var d := Directive(fmt, pos + 1, Plain);
      if d.ch.None? {
        EndedSeven(before, out + "%", max, arg);
      } else {
        var piece := SmoothPiece(env, params, fmt, pos, arg, before, out, max, d, d.ch.value);
        FmtPiece(env, params, fmt, pos, arg, before, out, max, d, d.ch.value, piece.0, piece.1);
        SmoothIsDone(env, params, fmt, d.next, piece.1, before, out + piece.0, max);
      }
    }
  }

  /** The first output is the beginning of the second one. */
  predicate Begins(a: Result, b: Result, m: nat) {
    a.Done? && b.Done? && a.out == Take(b.out, m) && (|b.out| < m ==> a == b)
  }

  lemma TakeTake(s: string, m: nat, n: nat)
    requires m <= n
    ensures Take(Take(s, n), m) == Take(s, m)
  {
  }

  lemma FieldPrefix(text: string, d: Spec, m: nat, n: nat)
    requires m <= n
    ensures Take(NumberField(text, d, m), m) == Take(Take(NumberField(text, d, n), n), m)
  {
    TakeTake(NumberField(text, d, n), m, n);
    if d.left && |text| > d.width && n > |text| {
      var pad := if d.zero then '0' else ' ';
      if m > |text| {
        RepeatPrefix(pad, n - |text|, m - |text|);
        assert (text + Repeat(pad, n - |text|))[..m] == text + Repeat(pad, n - |text|)[..m - |text|];
      } else {
        assert (text + Repeat(pad, n - |text|))[..m] == text[..m];
      }
    }
  }

  /** A 7-bit string in its field, for less and for more room. */
  lemma StringPrefix(s: Str, d: Spec, m: nat, n: nat)
    requires SevenBit(s.text) && 0 < m <= n
    ensures StringField(s, d, m).Some? == StringField(s, d, n).Some?
    ensures StringField(s, d, m).Some? ==>
              Take(StringField(s, d, m).value, m) == Take(Take(StringField(s, d, n).value, n), m)
  {
    hide Shown, StringExcess, SevenBit, Take;
    FieldSeven(s, d, m);
    FieldSeven(s, d, n);
    FieldCut(Shown(s.text, d), d.width, m);
    FieldCut(Shown(s.text, d), d.width, n);
    TakeTake(Shown(s.text, d) + Repeat(' ', d.width - |Shown(s.text, d)|), m, n);
  }

  lemma FieldCut(shown: string, width: int, n: nat)
    ensures var t := Take(shown, n);
            Take(t + Repeat(' ', width - |t|), n) == Take(shown + Repeat(' ', width - |shown|), n)
  {
  }

  lemma ConvertedPrefix(env: Env, params: seq<Param>, i: nat, d: Spec, ch: char, m: nat, n: nat)
    requires SevenBitTexts(env, params) && i < |params| && 0 < m <= n && TakesParam(ch)
    requires Converted(env, params[i], d, ch, n).Text?
    ensures Converted(env, params[i], d, ch, m).Text?
    ensures Take(Converted(env, params[i], d, ch, m).s, m) == Take(Take(Converted(env, params[i], d, ch, n).s, n), m)
  {
    hide NumberField, NumberText, StringField, SevenBit, Take;
    var p := params[i];
    if IsNumber(ch) {
      FieldPrefix(NumberText(ch, p.value), d, m, n);
    } else if ch == 'c' || ch == 'f' {
      TakeTake(Converted(env, p, d, ch, n).s, m, n);
    } else if ch == 's' {
      StringPrefix(p.str, d, m, n);
    } else {
      StringOfSeven(env, params, i, ch);
      StringPrefix(StringOf(env, p, ch).value, d, m, n);
    }
  }

  /** With less room, a directive adds the beginning of what it adds with more. */
  lemma {:induction false} PiecePrefix(env: Env, params: seq<Param>, d: Spec, ch: char, arg: nat, mem: string, m: nat,
                                       n: nat, b: (string, nat))
    returns (a: (string, nat))
    requires SevenBitTexts(env, params)
    requires arg >= 1 && 0 < m <= n && Piece(env, params, d, ch, arg, mem, n) == Done(b.0, b.1)
    requires (ch == 'L' || ch == 'l') && arg + ParamsOf(ch) - 1 <= |params| ==>
               NoErrors(env, params, Translation(env, params, arg, ch), 0, arg + ParamsOf(ch), mem, "", n)
    ensures Piece(env, params, d, ch, arg, mem, m) == Done(a.0, a.1) && a.0 == Take(b.0, m) && (|b.0| < m ==> a == b)
    decreases Unread(params, arg), 0, 0
  {
    hide SevenBitTexts, Converted, Translation;
    if ch == 'L' || ch == 'l' {
      TranslationSeven(env, params, arg, ch);
      SmoothIsDone(env, params, Translation(env, params, arg, ch), 0, arg + ParamsOf(ch), mem, "", n);
      ShorterFrom(env, params, Translation(env, params, arg, ch), 0, arg + ParamsOf(ch), mem, "", m, n);
    } else if TakesParam(ch) {
      ConvertedPrefix(env, params, arg - 1, d, ch, m, n);
    }
    a := (Piece(env, params, d, ch, arg, mem, m).out, Piece(env, params, d, ch, arg, mem, m).arg);
  }

  lemma {:induction false} ShorterFrom(env: Env, params: seq<Param>, fmt: string, pos: nat, arg: nat, before: string,
                                       out: string, m: nat, n: nat)
    requires pos <= |fmt| && |out| <= m <= n && arg >= 1 && Smooth(env, params, fmt, pos, arg, before, out, n)
    requires m == 0 ==> Excess(before) == 0
    ensures Begins(Fmt(env, params, fmt, pos, arg, before, out, m), Fmt(env, params, fmt, pos, arg, before, out, n), m)
    decreases Unread(params, arg), |fmt| - pos + 1, 0
  {
    SmoothIsDone(env, params, fmt, pos, arg, before, out, n);
    if pos == |fmt| || |out| == m {
      EndedSeven(before, out, m, arg);
      EndedSeven(before, out, n, arg);
    } else if fmt[pos] != '%' {
      ShorterFrom(env, params, fmt, pos + 1, arg, before, out + [fmt[pos]], m, n);
    } else if Directive(fmt, pos + 1, Plain).ch.Some? {
      ShorterDirective(env, params, fmt, pos, arg, before, out, m, n);
    } else {
      EndedSeven(before, out + "%", m, arg);
      EndedSeven(before, out + "%", n, arg);
    }
  }

  lemma FmtPiece(env: Env, params: seq<Param>, fmt: string, pos: nat, arg: nat, before: string, out: string, max: nat,
                 d: Spec, ch: char, text: string, next: nat)
    requires pos < |fmt| && fmt[pos] == '%' && |out| < max && arg >= 1 && d == Directive(fmt, pos + 1, Plain)
             && d.ch == Some(ch)
    requires Piece(env, params, d, ch, arg, before + out, max - |out|) == Done(text, next)
    ensures Fmt(env, params, fmt, pos, arg, before, out, max)
         == Fmt(env, params, fmt, d.next, next, before, out + text, max)
  {
  }

  lemma SmoothPiece(env: Env, params: seq<Param>, fmt: string, pos: nat, arg: nat, before: string, out: string,
                    max: nat, d: Spec, ch: char)
    returns (piece: (string, nat))
    requires pos < |fmt| && fmt[pos] == '%' && |out| < max && arg >= 1 && d == Directive(fmt, pos + 1, Plain)
             && d.ch == Some(ch)
    requires Smooth(env, params, fmt, pos, arg, before, out, max)
    ensures Piece(env, params, d, ch, arg, before + out, max - |out|) == Done(piece.0, piece.1)
    ensures |piece.0| <= max - |out| && arg <= piece.1
            && Smooth(env, params, fmt, d.next, piece.1, before, out + piece.0, max)
    ensures (ch == 'L' || ch == 'l') && arg + ParamsOf(ch) - 1 <= |params| ==>
              NoErrors(env, params, Translation(env, params, arg, ch), 0, arg + ParamsOf(ch), before + out, "",
                       max - |out|)
  {
    hide SevenBitTexts, Excess, Fmt, Piece, Directive;
    DirectiveAt(fmt, pos + 1, Plain);
    PieceSeven(env, params, d, ch, arg, before + out, max - |out|);
    var r := Piece(env, params, d, ch, arg, before + out, max - |out|);
    piece := (r.out, r.arg);
    AddSeven(out, piece.0);
  }

  lemma {:induction false} ShorterDirective(env: Env, params: seq<Param>, fmt: string, pos: nat, arg: nat,
                                            before: string, out: string, m: nat, n: nat)
    requires pos < |fmt| && fmt[pos] == '%' && Directive(fmt, pos + 1, Plain).ch.Some?
    requires |out| < m <= n && arg >= 1 && Smooth(env, params, fmt, pos, arg, before, out, n)
    ensures Begins(Fmt(env, params, fmt, pos, arg, before, out, m), Fmt(env, params, fmt, pos, arg, before, out, n), m)
    decreases Unread(params, arg), |fmt| - pos, 1
  {
    hide Fmt, Piece, Begins, NoErrors;
    var d := Directive(fmt, pos + 1, Plain);
    var ch := d.ch.value;
    var b := SmoothPiece(env, params, fmt, pos, arg, before, out, n, d, ch);
    var a := PiecePrefix(env, params, d, ch, arg, before + out, m - |out|, n - |out|, b);
    FmtPiece(env, params, fmt, pos, arg, before, out, m, d, ch, a.0, a.1);
    FmtPiece(env, params, fmt, pos, arg, before, out, n, d, ch, b.0, b.1);
    ShorterAfter(env, params, fmt, d.next, a, b, before, out, m, n);
  }

  lemma {:induction false} ShorterAfter(env: Env, params: seq<Param>, fmt: string, pos: nat, a: (string, nat),
                                        b: (string, nat), before: string, out: string, m: nat, n: nat)
    requires pos <= |fmt| && a.1 >= 1 && b.1 >= 1 && |out| < m <= n && |out| + |b.0| <= n
    requires a.0 == Take(b.0, m - |out|) && (|b.0| < m - |out| ==> a == b)
    requires Smooth(env, params, fmt, pos, b.1, before, out + b.0, n)
    ensures Begins(Fmt(env, params, fmt, pos, a.1, before, out + a.0, m),
                   Fmt(env, params, fmt, pos, b.1, before, out + b.0, n), m)
    decreases Unread(params, b.1), |fmt| - pos + 1, 1
  {
    if |out| + |b.0| < m {
      ShorterFrom(env, params, fmt, pos, b.1, before, out + b.0, m, n);
    } else {
      SmoothIsDone(env, params, fmt, pos, b.1, before, out + b.0, n);
      TakeSeven(out + b.0, m);
      assert out + a.0 == Take(out + b.0, m);
      FmtEnds(env, params, fmt, pos, a.1, before, out + a.0, m);
      EndedSeven(before, out + a.0, m, a.1);
    }
  }

  /** For 7-bit text and without parameter errors, a shorter buffer receives the beginning of what a longer one
      receives. */
  lemma ShorterBufferGetsPrefix(env: Env, params: seq<Param>, fmt: string, arg: nat, before: string, m: nat, n: nat)
    requires m <= n && arg >= 1 && Smooth(env, params, fmt, 0, arg, before, "", n)
    requires m == 0 ==> Excess(before) == 0
    ensures var a, b := Fmt(env, params, fmt, 0, arg, before, "", m), Fmt(env, params, fmt, 0, arg, before, "", n);
            a.Done? && b.Done? && a.out == Take(b.out, m)
  {
    ShorterFrom(env, params, fmt, 0, arg, before, "", m, n);
  }

  const E1: char := 0xC3 as char
  const E2: char := 0xA9 as char

  /** With characters of several bytes it is not so: a translation that does not fit leaves its room to what
      comes behind it. */
  lemma ShorterIsNoPrefix(env: Env, p: Param, before: string)
    requires env.translate(env.fmtLang, p.str.text) == Some([E1, E2])
    ensures Fmt(env, [p], "%l!", 0, 1, before, "", 1) == Done("!", 2)
    ensures Fmt(env, [p], "%l!", 0, 1, before, "", 3) == Done([E1, E2, '!'], 2)
  {
    hide Fmt, Directive, Ended, Piece;
    TranslationDirective("%l!");
    LetterFits(env, p, before, 1);
    LetterFits(env, p, before, 3);
    FmtDirective(env, [p], "%l!", 0, 1, before, "", 1);
    FmtDirective(env, [p], "%l!", 0, 1, before, "", 3);
    BangBehind(env, p, before, "", 1);
    BangBehind(env, p, before, [E1, E2], 3);
  }

  lemma TranslationDirective(fmt: string)
    requires fmt == "%l!"
    ensures Directive(fmt, 1, Plain) == Plain.(ch := Some('l'), next := 2)
  {
  }

  lemma BangBehind(env: Env, p: Param, before: string, out: string, max: nat)
    requires |out| + 1 == max
    ensures Fmt(env, [p], "%l!", 2, 2, before, "" + out, max) == Done(out + "!", 2)
  {
    hide Fmt, Ended;
    assert "" + out == out;
    FmtCharacter(env, [p], "%l!", 2, 2, before, out, max);
    FmtEnds(env, [p], "%l!", 3, 2, before, out + "!", max);
    BangEnds(before, out, max);
  }

  lemma BangEnds(before: string, out: string, max: nat)
    requires |out| + 1 == max
    ensures Ended(before, out + "!", max, 2) == Done(out + "!", 2)
  {
    var mem := before + (out + "!");
    assert mem[|mem| - 1] == '!';
    assert (out + "!")[..max] == out + "!";
  }

  lemma LetterFits(env: Env, p: Param, before: string, max: nat)
    requires env.translate(env.fmtLang, p.str.text) == Some([E1, E2]) && (max == 1 || max == 3)
    ensures Piece(env, [p], Plain.(ch := Some('l'), next := 2), 'l', 1, before + "", max)
         == Done(if max == 1 then "" else [E1, E2], 2)
  {
    hide Fmt, Ended;
    var mem, letter := before + "", [E1, E2];
    assert "" + [E1] == [E1] && [E1] + [E2] == letter;
    FmtCharacter(env, [p], letter, 0, 2, mem, "", max);
    if max == 1 {
      FmtEnds(env, [p], letter, 1, 2, mem, [E1], 1);
    } else {
      FmtCharacter(env, [p], letter, 1, 2, mem, [E1], 3);
      FmtEnds(env, [p], letter, 2, 2, mem, letter, 3);
    }
    LetterEnds(mem);
  }

  lemma LetterEnds(mem: string)
    ensures Ended(mem, [E1], 1, 2) == Done("", 2) && Ended(mem, [E1, E2], 3, 2) == Done([E1, E2], 2)
  {
    assert (mem + [E1])[|mem|] == E1;
    assert !Continues(E1) && High(E1) && LengthBy(E1) == 2;
    assert [E1][..0] == "" && [E1, E2][..2] == [E1, E2];
  }
}
