/**
 What the formatter does to text that has characters of several bytes, and when 7-bit text comes
 through untouched.
 */
module FormatText {
  import opened Basics
  import opened Format

  // ---------- Whole characters ----------

  /** A character of one byte, or of as many as its first byte says. */
  predicate Whole(c: string) {
    c != "" && (if |c| == 1 then !High(c[0]) else LengthBy(c[0]) == |c| && forall i :: 1 <= i < |c| ==> Continues(c[i]))
  }

  /** The UTF-8 encoding of a code point (section 3 of RFC 3629). */
  function Utf8(point: nat): string
    requires point < 0x11_0000
  {
    if point < 0x80 then [point as char]
    else if point < 0x800 then [(0xC0 + point / 64) as char, (0x80 + point % 64) as char]
    else if point < 0x1_0000 then
      [(0xE0 + point / 64 / 64) as char, (0x80 + point / 64 % 64) as char, (0x80 + point % 64) as char]
    else
      [(0xF0 + point / 64 / 64 / 64) as char, (0x80 + point / 64 / 64 % 64) as char, (0x80 + point / 64 % 64) as char,
       (0x80 + point % 64) as char]
  }

  lemma FirstBytes(b: nat)
    requires b < 256
    ensures b < 0x80 ==> !High(b as char)
    ensures 0x80 <= b < 0xC0 ==> Continues(b as char)
    ensures 0xC0 <= b < 0xE0 ==> LengthBy(b as char) == 2
    ensures 0xE0 <= b < 0xF0 ==> LengthBy(b as char) == 3
    ensures 0xF0 <= b ==> LengthBy(b as char) == 4
  {
  }

  /** Every code point's encoding is whole, and no shorter beginning of it is. */
  lemma Utf8IsWhole(point: nat, n: nat)
    requires point < 0x11_0000
    ensures Whole(Utf8(point)) && (0 < n < |Utf8(point)| ==> !Whole(Utf8(point)[..n]))
  {
    hide High, Continues, LengthBy;
    var c := Utf8(point);
    assert forall i :: 0 <= i < |c| ==> c[i] as int < 256;
    FirstBytes(c[0] as int);
    ByteKinds(c[0]);
    forall i | 1 <= i < |c| ensures Continues(c[i]) {
      FirstBytes(c[i] as int);
    }
  }

  predicate AllWhole(chars: seq<string>) {
    forall i :: 0 <= i < |chars| ==> Whole(chars[i])
  }

  function Joined(chars: seq<string>): string {
    if chars == [] then "" else chars[0] + Joined(chars[1..])
  }

  /** How many characters fit into n bytes. */
  function Fitting(chars: seq<string>, n: nat): (k: nat)
    ensures k <= |chars|
  {
    if chars == [] || |chars[0]| > n then 0 else 1 + Fitting(chars[1..], n - |chars[0]|)
  }

  lemma ByteKinds(c: char)
    ensures Continues(c) ==> High(c) && LengthBy(c) == 0
    ensures LengthBy(c) > 0 ==> High(c) && !Continues(c)
  {
    HighBits(c as int, c as int / 16);
  }

  /** The two highest bits of the lowest byte of n, in terms of its four highest. */
  lemma HighBits(n: nat, q: nat)
    requires q == n / 16
    ensures n / 64 % 4 == q % 16 / 4 && n / 128 % 2 == q % 16 / 8
  {
    DivideOn(n, q);
    LowBits(q);
  }

  lemma DivideOn(n: nat, q: nat)
    requires q == n / 16
    ensures n / 64 == q / 4 && n / 128 == q / 8
  {
  }

  lemma LowBits(q: nat)
    ensures q / 4 % 4 == q % 16 / 4 && q / 8 % 2 == q % 16 / 8
  {
    var t, h := q / 16, q % 16;
    Quotients(q, t, h);
    RestOfFour(t, h / 4);
    RestOfTwo(t, h / 8);
  }

  lemma Quotients(q: nat, t: nat, h: nat)
    requires q == 16 * t + h && h < 16
    ensures q / 4 == 4 * t + h / 4 && q / 8 == 2 * t + h / 8
  {
  }

  lemma RestOfFour(t: nat, h: nat)
    requires h < 4
    ensures (4 * t + h) % 4 == h
  {
  }

  lemma RestOfTwo(t: nat, h: nat)
    requires h < 2
    ensures (2 * t + h) % 2 == h
  {
  }

  /** The end of a memory that is the beginning of one character. */
  lemma {:induction false} EndsInCharacter(mem: string, c: string, m: nat)
    requires 1 < |c| && Whole(c) && 0 < m <= |c|
    ensures Tail(mem + c[..m]) == m - 1
    ensures Excess(mem + c[..m]) == if m == |c| then 0 else m
  {
    TailOfCharacter(mem, c, m);
    var whole := mem + c[..m];
    ByteKinds(c[0]);
    if m > 1 {
      ByteKinds(c[m - 1]);
    }
    assert whole[|whole| - 1] == c[m - 1] && whole[|whole| - m] == c[0];
  }

  lemma {:induction false} TailOfCharacter(mem: string, c: string, m: nat)
    requires 1 < |c| && Whole(c) && 0 < m <= |c|
    ensures Tail(mem + c[..m]) == m - 1
  {
    var whole := mem + c[..m];
    ByteKinds(c[0]);
    assert whole[|whole| - 1] == c[m - 1];
    if m > 1 {
      assert whole[..|whole| - 1] == mem + c[..m - 1];
      TailOfCharacter(mem, c, m - 1);
    }
  }

  /** The test takes off exactly the bytes of a character that does not fit: of n bytes of a text, the
      characters stay that fit into n bytes. */
  lemma {:induction false} KeepsWholeCharacters(mem: string, chars: seq<string>, n: nat)
    requires AllWhole(chars) && n <= |Joined(chars)| && (n == 0 ==> Excess(mem) == 0)
    ensures Excess(mem + Joined(chars)[..n]) <= n
    ensures Joined(chars)[..n - Excess(mem + Joined(chars)[..n])] == Joined(chars[..Fitting(chars, n)])
    decreases |chars|
  {
    hide Whole, Excess, LengthBy, Continues, High;
    var text := Joined(chars);
    if n == 0 {
      assert mem + text[..0] == mem;
      FittingNone(chars);
    } else if n < |chars[0]| {
      assert text[..n] == chars[0][..n];
      EndsInCharacter(mem, chars[0], n);
    } else {
      var c, rest, m := chars[0], chars[1..], n - |chars[0]|;
      AfterWhole(mem, c);
      KeepsWholeCharacters(mem + c, rest, m);
      KeepsFirst(mem, c, Joined(rest), m);
      JoinedFirst(c, rest, Fitting(rest, m));
      assert chars == [c] + rest;
    }
  }

  lemma KeepsFirst(mem: string, c: string, rest: string, m: nat)
    requires m <= |rest| && Excess((mem + c) + rest[..m]) <= m
    ensures var cut := Excess((mem + c) + rest[..m]);
            && Excess(mem + (c + rest)[..|c| + m]) == cut
            && (c + rest)[..|c| + m - cut] == c + rest[..m - cut]
  {
    assert mem + (c + rest)[..|c| + m] == (mem + c) + rest[..m];
  }

  lemma JoinedFirst(c: string, rest: seq<string>, k: nat)
    requires k <= |rest|
    ensures Joined(([c] + rest)[..k + 1]) == c + Joined(rest[..k])
  {
    assert ([c] + rest)[..k + 1] == [c] + rest[..k];
    assert ([c] + rest[..k])[1..] == rest[..k];
  }

  lemma AfterWhole(mem: string, c: string)
    requires Whole(c)
    ensures Excess(mem + c) == 0
  {
    if |c| == 1 {
      assert (mem + c)[|mem + c| - 1] == c[0];
    } else {
      assert c[..|c|] == c;
      EndsInCharacter(mem, c, |c|);
    }
  }

  lemma FittingNone(chars: seq<string>)
    requires AllWhole(chars)
    ensures Fitting(chars, 0) == 0
  {
  }

  /** What the precision and the room let through of a string of whole characters. */
  lemma StringKeepsWholeCharacters(chars: seq<string>, before: string, d: Spec, room: nat)
    requires AllWhole(chars) && d.prec >= 0
    ensures var n := |Take(Shown(Joined(chars), d), room)|;
            n > 0 ==>
              var kept := Joined(chars[..Fitting(chars, n)]);
              StringField(Cells(Joined(chars), before), d, room) == Some(kept + Repeat(' ', d.width - |kept|))
  {
    hide Excess, Joined, Fitting, AllWhole;
    var text := Joined(chars);
    var n := |Take(Shown(text, d), room)|;
    if n > 0 {
      assert Take(Shown(text, d), room) == text[..n];
      KeepsWholeCharacters(before, chars, n);
      var cut := Excess(before + text[..n]);
      assert text[..n][..n - cut] == text[..n - cut];
    }
  }

  /** The end of a call whose output is cut out of a text of whole characters. */
  lemma EndKeepsWholeCharacters(chars: seq<string>, before: string, max: nat, arg: nat)
    requires AllWhole(chars) && (max == 0 ==> Excess(before) == 0)
    ensures Ended(before, Take(Joined(chars), max), max, arg) == Done(Joined(chars[..Fitting(chars, max)]), arg)
  {
    var text := Joined(chars);
    if |text| < max {
      AllFit(chars, max);
    } else {
      assert Take(text, max) == text[..max];
      KeepsWholeCharacters(before, chars, max);
      var cut := Excess(before + text[..max]);
      assert text[..max][..max - cut] == text[..max - cut];
    }
  }

  lemma {:induction false} AllFit(chars: seq<string>, n: nat)
    requires |Joined(chars)| <= n
    ensures Fitting(chars, n) == |chars| && chars[..|chars|] == chars
    decreases |chars|
  {
    if chars != [] {
      AllFit(chars[1..], n - |chars[0]|);
    }
  }

  // ---------- 7-bit text ----------

  predicate SevenBit(s: string) {
    forall i :: 0 <= i < |s| ==> !High(s[i])
  }

  ghost predicate SevenBitStr(s: Option<Str>) {
    s.Some? ==> SevenBit(s.value.text)
  }

  /** All texts at hand are 7-bit, and so are the characters given as numbers. */
  ghost predicate SevenBitTexts(env: Env, params: seq<Param>) {
    && (forall lang, key {:trigger env.translate(lang, key)} ::
          env.translate(lang, key).Some? ==> SevenBit(env.translate(lang, key).value))
    && (forall v {:trigger env.name(v)} :: SevenBitStr(env.name(v)))
    && (forall v {:trigger env.fullName(v)} :: SevenBitStr(env.fullName(v)))
    && (forall v, d {:trigger env.floating(v, d)} :: SevenBit(env.floating(v, d)))
    && (forall i {:trigger params[i]} :: 0 <= i < |params| ==>
          params[i].value % 256 < 128 && SevenBit(params[i].str.text) && SevenBitStr(params[i].handle))
  }

  /** The only end that is not whole is that of no text at all. */
  lemma EndedSeven(before: string, out: string, max: nat, arg: nat)
    requires SevenBit(out) && |out| <= max
    ensures Ended(before, out, max, arg)
         == if max == 0 && Excess(before) > 0 then Overrun("", arg) else Done(out, arg)
  {
    if out != "" {
      assert (before + out)[|before + out| - 1] == out[|out| - 1];
    } else {
      assert before + out == before;
    }
    assert out[..|out|] == out;
  }

  /** A precision that shows nothing of the string. */
  predicate ShowsNothing(text: string, d: Spec) {
    d.prec >= 0 && Shown(text, d) == ""
  }

  lemma FieldSeven(s: Str, d: Spec, room: nat)
    requires SevenBit(s.text) && room > 0
    ensures StringField(s, d, room).None? <==> ShowsNothing(s.text, d) && StringExcess(s, 0) > 0
    ensures StringField(s, d, room).Some? ==>
              var shown := Take(Shown(s.text, d), room);
              StringField(s, d, room).value == shown + Repeat(' ', d.width - |shown|)
    ensures StringField(s, d, room).Some? ==> SevenBit(StringField(s, d, room).value)
  {
    var shown := Take(Shown(s.text, d), room);
    RepeatSeven(' ', d.width - |shown|);
    if shown != "" {
      NoExcess(s, |shown|);
    }
    assert shown[..|shown|] == shown;
  }

  lemma NoExcess(s: Str, n: nat)
    requires SevenBit(s.text) && 0 < n <= |s.text|
    ensures StringExcess(s, n) == 0
  {
    if s.Cells? {
      var mem := s.before + s.text[..n];
      assert mem[|mem| - 1] == s.text[n - 1];
    }
  }

  lemma {:induction false} RepeatSeven(c: char, n: int)
    requires !High(c)
    ensures SevenBit(Repeat(c, n))
  {
    if n > 0 {
      RepeatSeven(c, n - 1);
    }
  }

  lemma AddSeven(a: string, b: string)
    requires SevenBit(a) && SevenBit(b)
    ensures SevenBit(a + b)
  {
  }

  lemma {:induction false} ReversedSeven(s: string)
    requires SevenBit(s)
    ensures SevenBit(Reversed(s))
  {
    if s != "" {
      ReversedSeven(s[1..]);
    }
  }

  lemma DigitSeven(n: nat, upper: bool)
    requires n < 16
    ensures SevenBit([DigitOf(n, upper)])
  {
  }

  lemma {:induction false} DigitsSeven(v: nat, base: nat, upper: bool)
    requires 2 <= base <= 16
    ensures SevenBit(Digits(v, base, upper))
  {
    Division(v, base);
    DigitSeven(LastDigit(v, base), upper);
    if Shorter(v, base) > 0 {
      DigitsSeven(Shorter(v, base), base, upper);
    }
  }

  lemma NumberSeven(ch: char, v: int, d: Spec, room: nat)
    ensures SevenBit(NumberField(NumberText(ch, v), d, room))
  {
    hide NumberText, Repeat, High;
    NumberTextSeven(ch, v);
    var text, pad := NumberText(ch, v), if d.zero then '0' else ' ';
    Blank(pad);
    RepeatSeven(pad, d.width - |text|);
    RepeatSeven(pad, room - |text|);
  }

  lemma Blank(c: char)
    requires c == '0' || c == ' '
    ensures !High(c)
  {
  }

  lemma NumberTextSeven(ch: char, v: int)
    ensures SevenBit(NumberText(ch, v))
  {
    hide Digits, Reversed, SevenBit, High;
    var digits := if ch == 'b' then Digits(Unsigned(v), 2, false) else if ch == 'u' then Digits(Unsigned(v), 10, false)
      else if ch == 'x' then Digits(Unsigned(v), 16, false) else if ch == 'X' then Digits(Unsigned(v), 16, true)
      else SignedDigits(Signed(v));
    DigitsSeven(Unsigned(v), 2, false);
    DigitsSeven(Unsigned(v), 10, false);
    DigitsSeven(Unsigned(v), 16, false);
    DigitsSeven(Unsigned(v), 16, true);
    SignedSeven(Signed(v));
    ReversedSeven(digits);
  }

  lemma SignedSeven(v: int)
    ensures SevenBit(SignedDigits(v))
  {
    DigitsSeven(if v < 0 then -v else v, 10, false);
    AddSeven(Digits(if v < 0 then -v else v, 10, false), "-");
  }

  /** A string directive whose precision shows nothing, with an end that is not whole before its string. */
  predicate StraysAt(env: Env, p: Param, d: Spec, ch: char) {
    if ch == 's' then ShowsNothing(p.str.text, d) && StringExcess(p.str, 0) > 0
    else
      ch in "aNn" && StringOf(env, p, ch).Some?
      && var s := StringOf(env, p, ch).value; ShowsNothing(s.text, d) && StringExcess(s, 0) > 0
  }

  lemma ConvertedSeven(env: Env, params: seq<Param>, i: nat, d: Spec, ch: char, room: nat)
    requires SevenBitTexts(env, params) && i < |params| && room > 0 && TakesParam(ch)
    ensures Converted(env, params[i], d, ch, room).Text? ==> SevenBit(Converted(env, params[i], d, ch, room).s)
    ensures Converted(env, params[i], d, ch, room).Runaway? <==> StraysAt(env, params[i], d, ch)
  {
    hide NumberField, NumberText, StringField, ShowsNothing;
    var p := params[i];
    if IsNumber(ch) {
      NumberSeven(ch, p.value, d, room);
    } else if ch == 's' {
      FieldSeven(p.str, d, room);
    } else if ch != 'c' && ch != 'f' && StringOf(env, p, ch).Some? {
      StringOfSeven(env, params, i, ch);
      FieldSeven(StringOf(env, p, ch).value, d, room);
    }
  }

  lemma StringOfSeven(env: Env, params: seq<Param>, i: nat, ch: char)
    requires SevenBitTexts(env, params) && i < |params| && StringOf(env, params[i], ch).Some?
    ensures SevenBit(StringOf(env, params[i], ch).value.text)
  {
    assert SevenBitStr(env.name(params[i].value)) && SevenBitStr(env.fullName(params[i].value));
  }

  lemma TranslationSeven(env: Env, params: seq<Param>, arg: nat, ch: char)
    requires SevenBitTexts(env, params) && (ch == 'L' || ch == 'l') && arg >= 1 && arg + ParamsOf(ch) - 1 <= |params|
    ensures SevenBit(Translation(env, params, arg, ch))
  {
    var key := if ch == 'L' then params[arg].str.text else params[arg - 1].str.text;
    AddSeven("ML_NOTFOUND: ", key);
  }

  lemma TakeSeven(s: string, n: nat)
    requires SevenBit(s)
    ensures SevenBit(Take(s, n))
  {
  }

  lemma {:induction false} PieceSeven(env: Env, params: seq<Param>, d: Spec, ch: char, arg: nat, mem: string, room: nat)
    requires SevenBitTexts(env, params) && arg >= 1 && room > 0 && !High(ch)
    ensures var r := Piece(env, params, d, ch, arg, mem, room); r.Done? ==> SevenBit(r.out)
    decreases Unread(params, arg), 0
  {
    hide Converted, SevenBitTexts, Take, Translation, Fmt;
    if ch == 'L' || ch == 'l' {
      if arg + ParamsOf(ch) - 1 <= |params| {
        TranslationSeven(env, params, arg, ch);
        FmtSeven(env, params, Translation(env, params, arg, ch), 0, arg + ParamsOf(ch), mem, "", room);
      }
    } else if TakesParam(ch) && arg <= |params| {
      ConvertedSeven(env, params, arg - 1, d, ch, room);
      if Converted(env, params[arg - 1], d, ch, room).Text? {
        TakeSeven(Converted(env, params[arg - 1], d, ch, room).s, room);
      }
    }
  }

  lemma CharacterSeven(s: string, i: nat)
    requires SevenBit(s) && i < |s|
    ensures SevenBit([s[i]]) && !High(s[i])
  {
  }

  /** 7-bit text gives 7-bit output, and runs over its buffer only if that has no room and something that is
      not whole ends before it. */
  lemma {:induction false} FmtSeven(env: Env, params: seq<Param>, fmt: string, pos: nat, arg: nat, before: string,
                                    out: string, max: nat)
    requires SevenBitTexts(env, params) && SevenBit(fmt) && SevenBit(out)
    requires pos <= |fmt| && |out| <= max && arg >= 1
    ensures var r := Fmt(env, params, fmt, pos, arg, before, out, max);
            (r.Done? ==> SevenBit(r.out)) && (r.Overrun? <==> max == 0 && Excess(before) > 0)
    decreases Unread(params, arg), |fmt| - pos + 1
  {
    hide Fmt, Piece, SevenBit, SevenBitTexts, Excess, Directive, Ended, High;
    if pos == |fmt| || |out| == max {
      FmtEnds(env, params, fmt, pos, arg, before, out, max);
      EndedSeven(before, out, max, arg);
    } else if fmt[pos] != '%' {
      FmtCharacter(env, params, fmt, pos, arg, before, out, max);
      CharacterSeven(fmt, pos);
      AddSeven(out, [fmt[pos]]);
      FmtSeven(env, params, fmt, pos + 1, arg, before, out + [fmt[pos]], max);
    } else {
      var d := Directive(fmt, pos + 1, Plain);
      FmtDirective(env, params, fmt, pos, arg, before, out, max);
      if d.ch.None? {
        CharacterSeven(fmt, pos);
        AddSeven(out, "%");
        EndedSeven(before, out + "%", max, arg);
      } else {
        DirectiveAt(fmt, pos + 1, Plain);
        CharacterSeven(fmt, d.next - 1);
        PieceSeven(env, params, d, d.ch.value, arg, before + out, max - |out|);
        var piece := Piece(env, params, d, d.ch.value, arg, before + out, max - |out|);
        if piece.Done? {
          AddSeven(out, piece.out);
          FmtSeven(env, params, fmt, d.next, piece.arg, before, out + piece.out, max);
        }
      }
    }
  }

  /** The character of a directive is one of the format. */
  lemma {:induction false} DirectiveAt(fmt: string, pos: nat, d: Spec)
    requires pos <= |fmt|
    ensures var r := Directive(fmt, pos, d); r.ch.Some? ==> pos < r.next <= |fmt| && r.ch.value == fmt[r.next - 1]
    decreases |fmt| - pos
  {
    if pos < |fmt| {
      if fmt[pos] == '-' {
        DirectiveAt(fmt, pos + 1, d.(left := true));
      } else if fmt[pos] == '.' {
        var (n, p) := NumberAt(fmt, pos + 1, 0);
        DirectiveAt(fmt, p, d.(prec := if n < 0 then -1 else n));
      } else if fmt[pos] == '0' {
        DirectiveAt(fmt, pos + 1, d.(zero := true));
      } else if IsDigit(fmt[pos]) {
        var (n, p) := NumberAt(fmt, pos, 0);
        DirectiveAt(fmt, p, d.(width := n));
      }
    }
  }

  /** Somewhere on the way, also in translations, a string directive strays. */
  predicate Strays(env: Env, params: seq<Param>, fmt: string, pos: nat, arg: nat, before: string, out: string, max: nat)
    requires pos <= |fmt| && |out| <= max && arg >= 1
    decreases Unread(params, arg), |fmt| - pos + 1
  {
    if pos == |fmt| || |out| == max then false
    else if fmt[pos] != '%' then Strays(env, params, fmt, pos + 1, arg, before, out + [fmt[pos]], max)
    else
      var d := Directive(fmt, pos + 1, Plain);
      d.ch.Some?
      && (|| StraysInside(env, params, d, d.ch.value, arg, before + out, max - |out|)
          || var piece := Piece(env, params, d, d.ch.value, arg, before + out, max - |out|);
             piece.Done? && Strays(env, params, fmt, d.next, piece.arg, before, out + piece.out, max))
  }

  predicate StraysInside(env: Env, params: seq<Param>, d: Spec, ch: char, arg: nat, mem: string, room: nat)
    requires arg >= 1 && room > 0
    decreases Unread(params, arg), 0
  {
    if ch == 'L' || ch == 'l' then
      arg + ParamsOf(ch) - 1 <= |params|
      && Strays(env, params, Translation(env, params, arg, ch), 0, arg + ParamsOf(ch), mem, "", room)
    else TakesParam(ch) && arg <= |params| && StraysAt(env, params[arg - 1], d, ch)
  }

  lemma {:induction false} PieceLost(env: Env, params: seq<Param>, d: Spec, ch: char, arg: nat, mem: string, room: nat)
    requires SevenBitTexts(env, params) && arg >= 1 && room > 0 && !High(ch)
    ensures Piece(env, params, d, ch, arg, mem, room).Lost? <==> StraysInside(env, params, d, ch, arg, mem, room)
    decreases Unread(params, arg), 0
  {
    hide Converted, SevenBitTexts, Translation, StraysAt;
    if ch == 'L' || ch == 'l' {
      if arg + ParamsOf(ch) - 1 <= |params| {
        TranslationSeven(env, params, arg, ch);
        FmtSeven(env, params, Translation(env, params, arg, ch), 0, arg + ParamsOf(ch), mem, "", room);
        LostExactly(env, params, Translation(env, params, arg, ch), 0, arg + ParamsOf(ch), mem, "", room);
      }
    } else if TakesParam(ch) && arg <= |params| {
      ConvertedSeven(env, params, arg - 1, d, ch, room);
    }
  }

  lemma {:induction false} LostExactly(env: Env, params: seq<Param>, fmt: string, pos: nat, arg: nat, before: string,
                                       out: string, max: nat)
    requires SevenBitTexts(env, params) && SevenBit(fmt) && SevenBit(out)
    requires pos <= |fmt| && |out| <= max && arg >= 1
    ensures Fmt(env, params, fmt, pos, arg, before, out, max).Lost?
       <==> Strays(env, params, fmt, pos, arg, before, out, max)
    decreases Unread(params, arg), |fmt| - pos + 1
  {
    hide Fmt, Piece, SevenBit, SevenBitTexts, Excess, Directive, Ended, High, StraysInside;
    if pos == |fmt| || |out| == max {
      FmtEnds(env, params, fmt, pos, arg, before, out, max);
    } else {
      if fmt[pos] != '%' {
        FmtCharacter(env, params, fmt, pos, arg, before, out, max);
        CharacterSeven(fmt, pos);
        AddSeven(out, [fmt[pos]]);
        LostExactly(env, params, fmt, pos + 1, arg, before, out + [fmt[pos]], max);
      } else {
        var d := Directive(fmt, pos + 1, Plain);
        FmtDirective(env, params, fmt, pos, arg, before, out, max);
        if d.ch.Some? {
          DirectiveAt(fmt, pos + 1, Plain);
          CharacterSeven(fmt, d.next - 1);
          PieceLost(env, params, d, d.ch.value, arg, before + out, max - |out|);
          PieceSeven(env, params, d, d.ch.value, arg, before + out, max - |out|);
          var piece := Piece(env, params, d, d.ch.value, arg, before + out, max - |out|);
          if piece.Done? {
            AddSeven(out, piece.out);
            LostExactly(env, params, fmt, d.next, piece.arg, before, out + piece.out, max);
          }
        }
      }
    }
  }

  /** 7-bit text keeps to its buffer, if and only if there is room or nothing broken ends before the buffer, and
      no string directive strays on the way. */
  lemma SevenBitExactly(env: Env, params: seq<Param>, fmt: string, arg: nat, before: string, max: nat)
    requires SevenBitTexts(env, params) && SevenBit(fmt) && arg >= 1
    ensures var r := Fmt(env, params, fmt, 0, arg, before, "", max);
            (r.Done? || r.Failed?)
            <==> !(max == 0 && Excess(before) > 0) && !Strays(env, params, fmt, 0, arg, before, "", max)
  {
    FmtSeven(env, params, fmt, 0, arg, before, "", max);
    LostExactly(env, params, fmt, 0, arg, before, "", max);
  }

  /** Every string that a directive can show is without excess when nothing of it is shown. */
  ghost predicate WellPlaced(env: Env, params: seq<Param>) {
    forall i {:trigger params[i]} :: 0 <= i < |params| ==>
      && StringExcess(params[i].str, 0) == 0
      && forall ch :: ch in "aNn" && StringOf(env, params[i], ch).Some? ==>
           StringExcess(StringOf(env, params[i], ch).value, 0) == 0
  }

  lemma {:induction false} PlacedDoesNotStray(env: Env, params: seq<Param>, fmt: string, pos: nat, arg: nat,
                                              before: string, out: string, max: nat)
    requires WellPlaced(env, params) && pos <= |fmt| && |out| <= max && arg >= 1
    ensures !Strays(env, params, fmt, pos, arg, before, out, max)
    decreases Unread(params, arg), |fmt| - pos + 1
  {
    if pos < |fmt| && |out| < max {
      if fmt[pos] != '%' {
        PlacedDoesNotStray(env, params, fmt, pos + 1, arg, before, out + [fmt[pos]], max);
      } else {
        var d := Directive(fmt, pos + 1, Plain);
        if d.ch.Some? {
          var ch := d.ch.value;
          if (ch == 'L' || ch == 'l') && arg + ParamsOf(ch) - 1 <= |params| {
            PlacedDoesNotStray(env, params, Translation(env, params, arg, ch), 0, arg + ParamsOf(ch), before + out, "",
                               max - |out|);
          }
          var piece := Piece(env, params, d, ch, arg, before + out, max - |out|);
          if piece.Done? {
            PlacedDoesNotStray(env, params, fmt, d.next, piece.arg, before, out + piece.out, max);
          }
        }
      }
    }
  }

  /** No format whatever makes a string directive stray, if and only if all strings are well placed. */
  lemma NeverLostExactly(env: Env, params: seq<Param>)
    requires SevenBitTexts(env, params)
    ensures WellPlaced(env, params)
       <==> forall fmt, arg: nat, before, max: nat {:trigger Fmt(env, params, fmt, 0, arg, before, "", max)} ::
              SevenBit(fmt) && arg >= 1 ==> !Fmt(env, params, fmt, 0, arg, before, "", max).Lost?
  {
    if WellPlaced(env, params) {
      forall fmt, arg: nat, before, max: nat {:trigger Fmt(env, params, fmt, 0, arg, before, "", max)}
        | SevenBit(fmt) && arg >= 1
        ensures !Fmt(env, params, fmt, 0, arg, before, "", max).Lost?
      {
        LostExactly(env, params, fmt, 0, arg, before, "", max);
        PlacedDoesNotStray(env, params, fmt, 0, arg, before, "", max);
      }
    } else {
      var i :| 0 <= i < |params|
        && !(StringExcess(params[i].str, 0) == 0
             && forall ch :: ch in "aNn" && StringOf(env, params[i], ch).Some? ==>
                  StringExcess(StringOf(env, params[i], ch).value, 0) == 0);
      var ch := 's';
      if StringExcess(params[i].str, 0) == 0 {
        ch :| ch in "aNn" && StringOf(env, params[i], ch).Some?
          && StringExcess(StringOf(env, params[i], ch).value, 0) > 0;
      }
      EmptyPrecision(env, params, i, ch);
    }
  }

  /** Nothing of a string is asked for. */
  lemma EmptyPrecision(env: Env, params: seq<Param>, i: nat, ch: char)
    requires SevenBitTexts(env, params) && i < |params| && ch in "saNn"
    requires ch == 's' ==> StringExcess(params[i].str, 0) > 0
    requires ch != 's' ==> StringOf(env, params[i], ch).Some? && StringExcess(StringOf(env, params[i], ch).value, 0) > 0
    ensures SevenBit("%." + [ch]) && Fmt(env, params, "%." + [ch], 0, i + 1, "", "", 1).Lost?
  {
    hide Fmt, Converted, Directive, SevenBitTexts, StringExcess, StraysAt, StringOf;
    var fmt, d := "%." + [ch], Plain.(prec := 0, ch := Some(ch), next := 3);
    NothingAsked(fmt, ch);
    FmtDirective(env, params, fmt, 0, i + 1, "", "", 1);
    ConvertedSeven(env, params, i, d, ch, 1);
    StraysThere(env, params[i], d, ch);
  }

  lemma NothingAsked(fmt: string, ch: char)
    requires fmt == "%." + [ch] && ch in "saNn"
    ensures Directive(fmt, 1, Plain) == Plain.(prec := 0, ch := Some(ch), next := 3) && SevenBit(fmt)
  {
    assert NumberAt(fmt, 2, 0) == (0, 2);
    assert Directive(fmt, 2, Plain.(prec := 0)) == Plain.(prec := 0, ch := Some(ch), next := 3);
  }

  lemma StraysThere(env: Env, p: Param, d: Spec, ch: char)
    requires d.prec == 0 && ch in "saNn"
    requires ch == 's' ==> StringExcess(p.str, 0) > 0
    requires ch != 's' ==> StringOf(env, p, ch).Some? && StringExcess(StringOf(env, p, ch).value, 0) > 0
    ensures StraysAt(env, p, d, ch)
  {
  }

  // ---------- Inputs at which the tests look before a text ----------

  const Ones: char := 255 as char

  lemma OnesBroken(mem: string)
    ensures Excess(mem + [Ones]) == 1
  {
    assert (mem + [Ones])[|mem|] == Ones;
  }

  /** A buffer without room behind a cell of ones: the cell is zeroed, and the result is -1. */
  method NoRoom(env: Env) returns (written: int, cellBefore: char)
    ensures written == -1 && cellBefore == NUL
  {
    var buf := new char[2](_ => Ones);
    ghost var before := buf[..1];
    assert before == "" + [Ones];
    OnesBroken("");
    assert before + "" == before;
    FmtEnds(env, [], "", 0, 1, before, "", 0);
    var o, arg;
    o, written, arg := Atcprintf(env, [], "", buf, 1, 0, 1);
    cellBefore := buf[0];
  }

  /** A precision of nothing, or of an empty string, behind a cell of ones. */
  lemma NothingBehindOnes(text: string, d: Spec, room: nat)
    requires d.prec == 0 || (d.prec > 0 && text == "")
    ensures StringField(Cells(text, [Ones]), d, room).None?
  {
    OnesBroken("");
    assert "" + [Ones] == [Ones] && [Ones] + text[..0] == [Ones];
  }

  /** A high character in the last place is taken off. */
  lemma HighCharacterCut(env: Env, p: Param, before: string)
    requires p.value == 200
    ensures Fmt(env, [p], "%c", 0, 1, before, "", 1) == Done("", 2)
  {
    hide Fmt, Directive, Ended;
    var c: char := 200 as char;
    CharacterDirective("%c");
    FmtDirective(env, [p], "%c", 0, 1, before, "", 1);
    assert Piece(env, [p], Plain.(ch := Some('c'), next := 2), 'c', 1, before + "", 1) == Done([c], 2);
    assert "" + [c] == [c];
    FmtEnds(env, [p], "%c", 2, 2, before, [c], 1);
    HighCharacterEnds(before, c);
  }

  lemma CharacterDirective(fmt: string)
    requires fmt == "%c"
    ensures Directive(fmt, 1, Plain) == Plain.(ch := Some('c'), next := 2)
  {
  }

  lemma HighCharacterEnds(before: string, c: char)
    requires c as int == 200
    ensures Ended(before, [c], 1, 2) == Done("", 2)
  {
    var mem := before + [c];
    assert mem[|mem| - 1] == c;
    assert !Continues(c) && High(c) && LengthBy(c) == 2;
    assert [c][..0] == "";
  }
}
