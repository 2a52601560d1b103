/**
 The formatter (amxmodx/format.cpp). `Fmt` says what a format, its parameters and a limit give, for
 every table of translations; `Atcprintf` writes it into a buffer.

 Where the room or a precision cuts a text, a test takes off the bytes of a character that is not
 whole. It looks at the memory before the end of the text, and so also at what stands before a text
 or a buffer of which nothing is shown.

 How a floating-point number is written is part of the environment, as are players, languages and
 translations.
 */
module Format {
  import opened Basics

  /** A string. One of cells stands in memory behind `before`. Of one of bytes, `last` is the byte before
      it; the test of its end takes the bytes for cells and so looks elsewhere, and `stray` tells what
      it finds, by the number of bytes shown. */
  datatype Str = Cells(text: string, before: string) | Bytes(text: string, last: char, stray: nat -> nat)

  /** A parameter: the cell, the string at its address, and the string behind it as a handle. */
  datatype Param = Param(value: int, str: Str, handle: Option<Str>)

  datatype Env = Env(playerLang: int -> Option<string>, fmtLang: Option<string>,
                     translate: (Option<string>, string) -> Option<string>,
                     name: int -> Option<Str>, fullName: int -> Option<Str>, floating: (int, Spec) -> string)

  /** What stands between the '%' and the end of a directive. A directive without a character is the
      end of the format; `next` is where the format goes on. */
  datatype Spec = Spec(left: bool, zero: bool, width: int, prec: int, ch: Option<char>, next: nat)

  /** What comes of a call: its output and the next parameter; a parameter error; an output whose last
      character is not whole and began before the buffer; or a loop that runs on over the memory, or a
      translation that left its buffer, after which nothing is followed. */
  datatype Result = Done(out: string, arg: nat) | Failed | Overrun(out: string, arg: nat) | Lost

  // ---------- Numbers ----------

  function Unsigned(v: int): nat {
    v % WORD
  }

  function DigitOf(d: nat, upper: bool): char
    requires d < 16
  {
    if d < 10 then '0' + d as char else if upper then 'A' + (d - 10) as char else 'a' + (d - 10) as char
  }

  /** The digits of a number, the last one first. */
  function Digits(v: nat, base: nat, upper: bool): (r: string)
    requires 2 <= base <= 16
    ensures r != ""
  {
    Division(v, base);
    var rest := Shorter(v, base);
    if rest == 0 then [DigitOf(LastDigit(v, base), upper)]
      else [DigitOf(LastDigit(v, base), upper)] + Digits(rest, base, upper)
  }

  /** The number without its last digit, and the last digit. */
  function Shorter(v: nat, base: nat): nat
    requires base >= 2
  {
    v / base
  }

  function LastDigit(v: nat, base: nat): (r: nat)
    requires base >= 2
    ensures r < base
  {
    v % base
  }

  lemma Division(v: nat, base: nat)
    requires base >= 2
    ensures v == Shorter(v, base) * base + LastDigit(v, base)
    ensures Shorter(v, base) == 0 || Shorter(v, base) < v
  {
  }

  function SignedDigits(v: int): (r: string)
    ensures r != ""
  {
    if v < 0 then Digits(-v, 10, false) + "-" else Digits(v, 10, false)
  }

  function Reversed(s: string): (r: string)
    ensures |r| == |s|
  {
    if s == "" then "" else Reversed(s[1..]) + [s[0]]
  }

  function Repeat(c: char, n: int): (r: string)
    ensures |r| == if n > 0 then n else 0
  {
    if n <= 0 then "" else Repeat(c, n - 1) + [c]
  }

  /** A number in its field; the field of a number adjusted to the left that does not fit its width
      extends to the end of the room. */
  function NumberField(text: string, d: Spec, room: nat): string {
    var pad := if d.zero then '0' else ' ';
    if !d.left then Repeat(pad, d.width - |text|) + text
    else if |text| <= d.width then text + Repeat(pad, d.width - |text|)
    else text + Repeat(pad, room - |text|)
  }

  /** The part of a string that the precision lets through. */
  function Shown(text: string, d: Spec): string {
    if 0 <= d.prec < |text| then text[..d.prec] else text
  }

  function Take(s: string, room: nat): (r: string)
    ensures |r| <= room
  {
    if |s| <= room then s else s[..room]
  }

  // ---------- Characters of several bytes ----------

  const NUL: char := 0 as char

  predicate High(c: char) {
    c as int / 128 % 2 == 1
  }

  predicate Continues(c: char) {
    c as int / 64 % 4 == 2
  }

  /** How many bytes a character has, by its first one. */
  function LengthBy(c: char): nat {
    var h := c as int / 16 % 16;
    if h == 12 || h == 13 then 2 else if h == 14 then 3 else if h == 15 then 4 else 0
  }

  /** How many continuing bytes end a memory. */
  function Tail(mem: string): (r: nat)
    ensures r <= |mem|
  {
    if mem != "" && Continues(mem[|mem| - 1]) then 1 + Tail(mem[..|mem| - 1]) else 0
  }

  /** UTIL_CheckValidChar at the end of a memory: 0 if a whole character ends there, and otherwise the number
      of bytes from the last one that does not continue. What is before the memory counts as zero. */
  function Incomplete(mem: string): nat {
    var n := Tail(mem);
    if n < |mem| && LengthBy(mem[|mem| - 1 - n]) == n + 1 then 0 else n + 1
  }

  /** What the test takes off the end. */
  function Excess(mem: string): nat {
    if mem != "" && High(mem[|mem| - 1]) then Incomplete(mem) else 0
  }

  /** The same for the first n characters of a string. */
  function StringExcess(s: Str, n: nat): nat
    requires n <= |s.text|
  {
    match s
    case Cells(text, before) => Excess(before + text[..n])
    case Bytes(text, last, stray) => if High(if n > 0 then text[n - 1] else last) then stray(n) else 0
  }

  /** A string in its field. With a precision, a character that is not whole is taken off; None if that
      is more than there is. */
  function StringField(s: Str, d: Spec, room: nat): Option<string> {
    var shown := Take(Shown(s.text, d), room);
    var cut := if d.prec >= 0 then StringExcess(s, |shown|) else 0;
    if cut > |shown| then None
    else Some(shown[..|shown| - cut] + Repeat(' ', d.width - (|shown| - cut)))
  }

  /** The end of a call: if the room is used up, a character that is not whole is taken off. */
  function Ended(before: string, out: string, max: nat, arg: nat): (r: Result)
    requires |out| <= max
    ensures r.Done? || r.Overrun?
    ensures r.Done? ==> |r.out| <= |out| && r.arg == arg
    ensures r.Overrun? ==> r.out == out && r.arg == arg && |out| == max && Excess(before + out) > |out|
  {
    var cut := if |out| == max then Excess(before + out) else 0;
    if cut > |out| then Overrun(out, arg) else Done(out[..|out| - cut], arg)
  }

  // ---------- Directives ----------

  predicate IsDigit(c: char) {
    '0' <= c <= '9'
  }

  /** A decimal number in the format, in 32 bits; and where it ends. */
  function NumberAt(fmt: string, pos: nat, n: int): (r: (int, nat))
    requires pos <= |fmt|
    ensures pos <= r.1 <= |fmt|
    ensures pos < |fmt| && IsDigit(fmt[pos]) ==> pos < r.1
    decreases |fmt| - pos
  {
    if pos < |fmt| && IsDigit(fmt[pos]) then NumberAt(fmt, pos + 1, Signed(10 * n + (fmt[pos] as int - '0' as int)))
    else (n, pos)
  }

  function Directive(fmt: string, pos: nat, d: Spec): (r: Spec)
    requires pos <= |fmt|
    ensures r.ch.Some? ==> pos < r.next <= |fmt|
    decreases |fmt| - pos
  {
    if pos == |fmt| then d.(ch := None, next := pos)
    else if fmt[pos] == '-' then Directive(fmt, pos + 1, d.(left := true))
    else if fmt[pos] == '.' then
      var (n, p) := NumberAt(fmt, pos + 1, 0);
      Directive(fmt, p, d.(prec := if n < 0 then -1 else n))
    else if fmt[pos] == '0' then Directive(fmt, pos + 1, d.(zero := true))
    else if IsDigit(fmt[pos]) then
      var (n, p) := NumberAt(fmt, pos, 0);
      Directive(fmt, p, d.(width := n))
    else d.(ch := Some(fmt[pos]), next := pos + 1)
  }

  const Plain := Spec(false, false, 0, -1, None, 0)

  // ---------- The output ----------

  predicate Present(params: seq<Param>, arg: nat) {
    1 <= arg <= |params|
  }

  function NumberText(ch: char, v: int): string {
    if ch == 'b' then Reversed(Digits(Unsigned(v), 2, false))
    else if ch == 'u' then Reversed(Digits(Unsigned(v), 10, false))
    else if ch == 'x' then Reversed(Digits(Unsigned(v), 16, false))
    else if ch == 'X' then Reversed(Digits(Unsigned(v), 16, true))
    else Reversed(SignedDigits(Signed(v)))
  }

  predicate IsNumber(ch: char) {
    ch in "bdiuxX"
  }

  datatype Conversion = Text(s: string) | Missing | Runaway

  function FieldOf(s: Str, d: Spec, room: nat): Conversion {
    match StringField(s, d, room)
    case Some(text) => Text(text)
    case None => Runaway
  }

  /** A directive that takes one parameter: what it writes, unless the parameter is of no use or its string
      makes the copying loop run away. */
  function Converted(env: Env, p: Param, d: Spec, ch: char, room: nat): Conversion {
    if IsNumber(ch) then Text(NumberField(NumberText(ch, p.value), d, room))
    else if ch == 'c' then Text([(p.value % 256) as char])
    else if ch == 'f' then Text(env.floating(p.value, d))
    else if ch == 's' then FieldOf(p.str, d, room)
    else
      match StringOf(env, p, ch)
      case None => Missing
      case Some(s) => FieldOf(s, d, room)
  }

  /** The string of a handle or a player. */
  function StringOf(env: Env, p: Param, ch: char): Option<Str> {
    if ch == 'a' then p.handle else if ch == 'N' then env.fullName(p.value) else env.name(p.value)
  }

  predicate TakesParam(ch: char) {
    IsNumber(ch) || ch in "cfasNn"
  }

  function NotFound(key: string): string {
    Take("ML_NOTFOUND: " + key, 254)
  }

  /** The format that a translation directive stands for. */
  function Translation(env: Env, params: seq<Param>, arg: nat, ch: char): string
    requires if ch == 'L' then Present(params, arg) && Present(params, arg + 1) else Present(params, arg)
  {
    var lang :=
      if ch != 'L' then env.fmtLang
      else match env.playerLang(params[arg - 1].value)
           case Some(l) => Some(l)
           case None => Some(params[arg - 1].str.text);
    var key := if ch == 'L' then params[arg].str.text else params[arg - 1].str.text;
    match env.translate(lang, key)
    case Some(text) => text
    case None => NotFound(key)
  }

  function ParamsOf(ch: char): nat {
    if ch == 'L' then 2 else 1
  }

  function Unread(params: seq<Param>, arg: nat): nat {
    if arg <= |params| then |params| + 1 - arg else 0
  }

  /** What a directive adds to the output, behind the memory `mem`, and the next parameter. A translation that
      fails adds nothing, and its own two or one parameters are used up. */
  function Piece(env: Env, params: seq<Param>, d: Spec, ch: char, arg: nat, mem: string, room: nat): (r: Result)
    requires arg >= 1 && room > 0
    ensures r.Done? ==> |r.out| <= room && arg <= r.arg
    ensures !r.Overrun?
    decreases Unread(params, arg), 0
  {
    if ch == 'L' || ch == 'l' then
      if arg + ParamsOf(ch) - 1 > |params| then Failed
      else
        var arg' := arg + ParamsOf(ch);
        match Fmt(env, params, Translation(env, params, arg, ch), 0, arg', mem, "", room)
        case Done(inner, arg'') => Done(inner, arg'')
        case Failed => Done("", arg')
        case _ => Lost
    else if !TakesParam(ch) then Done([ch], arg)
    else if arg > |params| then Failed
    else
      match Converted(env, params[arg - 1], d, ch, room)
      case Text(text) => Done(Take(text, room), arg + 1)
      case Missing => Failed
      case Runaway => Lost
  }

  /** The output from a position of the format on, with the memory before the buffer, and what was written
      to it before. */
  function Fmt(env: Env, params: seq<Param>, fmt: string, pos: nat, arg: nat, before: string, out: string, max: nat)
    : (r: Result)
    requires pos <= |fmt| && |out| <= max && arg >= 1
    ensures r.Done? ==> |r.out| <= max && arg <= r.arg
    ensures r.Overrun? ==> |r.out| == max && arg <= r.arg && Excess(before + r.out) > |r.out|
    decreases Unread(params, arg), |fmt| - pos + 1
  {
    if pos == |fmt| || |out| == max then Ended(before, out, max, arg)
    else if fmt[pos] != '%' then Fmt(env, params, fmt, pos + 1, arg, before, out + [fmt[pos]], max)
    else
      var d := Directive(fmt, pos + 1, Plain);
      match d.ch
      case None => Ended(before, out + "%", max, arg)
      case Some(ch) =>
        match Piece(env, params, d, ch, arg, before + out, max - |out|)
        case Done(text, next) => Fmt(env, params, fmt, d.next, next, before, out + text, max)
        case Failed => Failed
        case _ => Lost
  }

  // ---------- Writing into a buffer ----------

  /** The text was written at p, and of the rest only the room after it may have changed. */
  ghost predicate Wrote(before: seq<char>, after: seq<char>, p: nat, text: string, room: nat) {
    && |after| == |before| && |text| <= room && p + room <= |before|
    && (forall i {:trigger after[i]} :: 0 <= i < p || p + room <= i < |after| ==> after[i] == before[i])
    && (forall i {:trigger text[i]} :: 0 <= i < |text| ==> after[p + i] == text[i])
  }

  lemma WroteNothing(a: seq<char>, p: nat, room: nat)
    requires p + room <= |a|
    ensures Wrote(a, a, p, "", room)
  {
  }

  lemma WroteInside(a: seq<char>, b: seq<char>, p: nat, t: string, room: nat)
    requires Wrote(a, b, p, t, room)
    ensures |b| == |a| && |t| <= room && p + room <= |a|
  {
  }

  lemma WroteBehind(a: seq<char>, b: seq<char>, p: nat, t: string, room: nat)
    requires Wrote(a, b, p, t, room)
    ensures p + |t| <= |b| && p <= |a| && b[..p + |t|] == a[..p] + t
  {
  }

  lemma WroteThen(a: seq<char>, b: seq<char>, c: seq<char>, p: nat, t: string, u: string, room: nat)
    requires Wrote(a, b, p, t, room) && Wrote(b, c, p + |t|, u, room - |t|)
    ensures Wrote(a, c, p, t + u, room)
  {
  }

  lemma WroteLess(a: seq<char>, b: seq<char>, p: nat, t: string, room: nat, more: nat)
    requires Wrote(a, b, p, t, room) && room <= more && p + more <= |a|
    ensures Wrote(a, b, p, t, more)
  {
  }

  lemma WrotePrefix(a: seq<char>, b: seq<char>, p: nat, t: string, n: nat, room: nat)
    requires Wrote(a, b, p, t, room) && n <= |t|
    ensures Wrote(a, b, p, t[..n], room)
  {
  }

  method Put(buf: array<char>, p: nat, c: char, ghost room: nat)
    requires 1 <= room && p + room <= buf.Length
    modifies buf
    ensures Wrote(old(buf[..]), buf[..], p, [c], room)
  {
    buf[p] := c;
  }

  lemma RepeatMore(c: char, n: nat)
    ensures Repeat(c, n) + [c] == Repeat(c, n + 1)
  {
  }

  lemma {:induction false} RepeatPrefix(c: char, n: nat, k: nat)
    requires k <= n
    ensures Repeat(c, n)[..k] == Repeat(c, k)
  {
    if k < n {
      RepeatPrefix(c, n - 1, k);
      assert Repeat(c, n)[..k] == Repeat(c, n - 1)[..k];
    }
  }

  /** The padding loops: n times the character, as far as there is room. */
  method Pad(buf: array<char>, p: nat, room: nat, c: char, n: int) returns (k: nat)
    requires p + room <= buf.Length
    modifies buf
    ensures k == |Take(Repeat(c, n), room)| && Wrote(old(buf[..]), buf[..], p, Take(Repeat(c, n), room), room)
  {
    k := 0;
    while k < n && k < room
      invariant k == 0 || k <= n
      invariant k <= room && Wrote(old(buf[..]), buf[..], p, Repeat(c, k), room)
    {
      ghost var before := buf[..];
      Put(buf, p + k, c, room - k);
      WroteThen(old(buf[..]), before, buf[..], p, Repeat(c, k), [c], room);
      RepeatMore(c, k);
      k := k + 1;
    }
    if n > 0 {
      RepeatPrefix(c, n, k);
      assert k == n ==> Repeat(c, n)[..k] == Repeat(c, n);
    }
  }

  /** The copying loops. */
  method Copy(buf: array<char>, p: nat, room: nat, text: string) returns (k: nat)
    requires p + room <= buf.Length
    modifies buf
    ensures k == |Take(text, room)| && Wrote(old(buf[..]), buf[..], p, Take(text, room), room)
  {
    k := 0;
    while k < |text| && k < room
      invariant k <= |text| && k <= room && Wrote(old(buf[..]), buf[..], p, text[..k], room)
    {
      ghost var before := buf[..];
      Put(buf, p + k, text[k], room - k);
      WroteThen(old(buf[..]), before, buf[..], p, text[..k], [text[k]], room);
      assert text[..k] + [text[k]] == text[..k + 1];
      k := k + 1;
    }
    assert k == |text| ==> text[..k] == text;
  }

  lemma TakeBoth(a: string, b: string, room: nat)
    ensures Take(a, room) + Take(b, room - |Take(a, room)|) == Take(a + b, room)
  {
  }

  lemma FieldParts(s: Str, d: Spec, room: nat)
    ensures |Take(Shown(s.text, d), room)| <= |s.text|
    ensures var shown := Take(Shown(s.text, d), room);
            var size := |shown| - (if d.prec >= 0 then StringExcess(s, |shown|) else 0);
            StringField(s, d, room) == if size < 0 then None else Some(shown[..size] + Repeat(' ', d.width - size))
  {
  }

  /** UTIL_CheckValidChar: back to the last byte that does not continue another one. */
  method CheckValidChar(mem: string) returns (n: nat)
    ensures n == Incomplete(mem)
  {
    var count, c: int := 1, |mem| - 1;
    assert mem[..|mem|] == mem;
    while c >= 0 && Continues(mem[c])
      invariant -1 <= c < |mem| && count == |mem| - c && Tail(mem) == Tail(mem[..c + 1]) + count - 1
    {
      assert mem[..c + 1][..c] == mem[..c];
      c := c - 1;
      count := count + 1;
    }
    var bytes := if c >= 0 then LengthBy(mem[c]) else 0;
    n := if bytes != count then count else 0;
  }

  /** The test of the first n characters of a string. */
  method CheckString(s: Str, n: nat) returns (cut: nat)
    requires n <= |s.text|
    ensures cut == StringExcess(s, n)
  {
    cut := 0;
    match s {
      case Cells(text, before) =>
        var mem := before + text[..n];
        if mem != "" && High(mem[|mem| - 1]) {
          cut := CheckValidChar(mem);
        }
      case Bytes(text, last, stray) =>
        if High(if n > 0 then text[n - 1] else last) {
          cut := stray(n);
        }
    }
  }

  /** The string in its field. If more is to be taken off than there is, the number of characters to copy is
      negative and the copying loop runs away; this is where the model stops. */
  method AddString(buf: array<char>, p: nat, room: nat, s: Str, d: Spec) returns (ok: bool, k: nat)
    requires p + room <= buf.Length
    modifies buf
    ensures ok == StringField(s, d, room).Some?
    ensures !ok ==> buf[..] == old(buf[..])
    ensures ok ==> var text := Take(StringField(s, d, room).value, room);
                   k == |text| && Wrote(old(buf[..]), buf[..], p, text, room)
  {
    hide Wrote, Take, Repeat, StringExcess, Shown, StringField;
    ghost var was := buf[..];
    FieldParts(s, d, room);
    var shown := Take(Shown(s.text, d), room);
    var size: int := |shown|;
    if d.prec >= 0 {
      var cut := CheckString(s, size);
      size := size - cut;
    }
    if size < 0 {
      return false, 0;
    }
    var kept, n := shown[..size], d.width - size;
    ghost var padding := Repeat(' ', n);
    TakeBoth(kept, padding, room);
    k := Copy(buf, p, room, kept);
    ghost var before := buf[..];
    var n' := Pad(buf, p + k, room - k, ' ', n);
    WroteThen(was, before, buf[..], p, Take(kept, room), Take(padding, room - k), room);
    k := k + n';
    ok := true;
  }

  lemma {:induction false} ReversedAt(s: string, k: nat)
    requires k < |s|
    ensures Reversed(s)[k] == s[|s| - 1 - k]
  {
    if k < |s| - 1 {
      ReversedAt(s[1..], k);
    }
  }

  lemma DigitsStep(text: string, v: nat, base: nat, upper: bool)
    requires 2 <= base <= 16
    ensures text + Digits(v, base, upper)
         == if Shorter(v, base) == 0 then text + [DigitOf(LastDigit(v, base), upper)]
            else (text + [DigitOf(LastDigit(v, base), upper)]) + Digits(Shorter(v, base), base, upper)
  {
  }

  /** The digit loops: the number is taken apart from its end. */
  method DigitsOf(v: nat, base: nat, upper: bool) returns (text: string)
    requires 2 <= base <= 16
    ensures text == Digits(v, base, upper)
  {
    text := [DigitOf(LastDigit(v, base), upper)];
    var rest: nat := Shorter(v, base);
    while rest != 0
      invariant Digits(v, base, upper) == if rest == 0 then text else text + Digits(rest, base, upper)
    {
      Division(rest, base);
      DigitsStep(text, rest, base, upper);
      text := text + [DigitOf(LastDigit(rest, base), upper)];
      rest := Shorter(rest, base);
    }
  }

  /** The digits are written from the last one found to the first. */
  method CopyBack(buf: array<char>, p: nat, room: nat, text: string) returns (k: nat)
    requires p + room <= buf.Length
    modifies buf
    ensures k == |Take(Reversed(text), room)| && Wrote(old(buf[..]), buf[..], p, Take(Reversed(text), room), room)
  {
    ghost var whole := Reversed(text);
    k := 0;
    while k < |text| && k < room
      invariant k <= |text| && k <= room && Wrote(old(buf[..]), buf[..], p, whole[..k], room)
    {
      ghost var before := buf[..];
      ReversedAt(text, k);
      Put(buf, p + k, text[|text| - 1 - k], room - k);
      WroteThen(old(buf[..]), before, buf[..], p, whole[..k], [whole[k]], room);
      assert whole[..k] + [whole[k]] == whole[..k + 1];
      k := k + 1;
    }
    assert k == |whole| ==> whole[..k] == whole;
  }

  /** AddInt, AddUInt, AddHex and AddBinary once the digits are known. */
  method AddDigits(buf: array<char>, p: nat, room: nat, text: string, d: Spec) returns (k: nat)
    requires p + room <= buf.Length
    modifies buf
    ensures k == |Take(NumberField(Reversed(text), d, room), room)|
    ensures Wrote(old(buf[..]), buf[..], p, Take(NumberField(Reversed(text), d, room), room), room)
  {
    if d.left {
      k := AddLeft(buf, p, room, text, d);
    } else {
      k := AddRight(buf, p, room, text, d);
    }
  }

  method AddRight(buf: array<char>, p: nat, room: nat, text: string, d: Spec) returns (k: nat)
    requires p + room <= buf.Length && !d.left
    modifies buf
    ensures k == |Take(NumberField(Reversed(text), d, room), room)|
    ensures Wrote(old(buf[..]), buf[..], p, Take(NumberField(Reversed(text), d, room), room), room)
  {
    var pad, n := if d.zero then '0' else ' ', d.width - |text|;
    ghost var padding, digits := Repeat(pad, n), Reversed(text);
    TakeBoth(padding, digits, room);
    assert NumberField(digits, d, room) == padding + digits;
    ghost var was := buf[..];
    k := Pad(buf, p, room, pad, n);
    ghost var before := buf[..];
    var n' := CopyBack(buf, p + k, room - k, text);
    WroteThen(was, before, buf[..], p, Take(padding, room), Take(digits, room - k), room);
    k := k + n';
  }

  lemma LeftField(digits: string, d: Spec, room: nat)
    requires d.left
    ensures NumberField(digits, d, room)
         == digits + Repeat(if d.zero then '0' else ' ', if |digits| <= d.width then d.width - |digits|
                            else room - |digits|)
  {
  }

  method AddLeft(buf: array<char>, p: nat, room: nat, text: string, d: Spec) returns (k: nat)
    requires p + room <= buf.Length && d.left
    modifies buf
    ensures k == |Take(NumberField(Reversed(text), d, room), room)|
    ensures Wrote(old(buf[..]), buf[..], p, Take(NumberField(Reversed(text), d, room), room), room)
  {
    // The width is counted down past zero if the digits do not fit it.
    hide Wrote, NumberField, Take, Repeat, Reversed;
    var pad, n := if d.zero then '0' else ' ', if |text| <= d.width then d.width - |text| else room - |text|;
    ghost var digits, padding := Reversed(text), Repeat(pad, n);
    TakeBoth(digits, padding, room);
    LeftField(digits, d, room);
    ghost var was := buf[..];
    k := CopyBack(buf, p, room, text);
    ghost var before := buf[..];
    var n' := Pad(buf, p + k, room - k, pad, n);
    WroteThen(was, before, buf[..], p, Take(digits, room), Take(padding, room - k), room);
    k := k + n';
  }

  method AddNumber(buf: array<char>, p: nat, room: nat, ch: char, v: int, d: Spec) returns (k: nat)
    requires p + room <= buf.Length && IsNumber(ch)
    modifies buf
    ensures k == |Take(NumberField(NumberText(ch, v), d, room), room)|
    ensures Wrote(old(buf[..]), buf[..], p, Take(NumberField(NumberText(ch, v), d, room), room), room)
  {
    hide Wrote, NumberField, Take, Digits, Reversed;
    var text;
    if ch == 'd' || ch == 'i' {
      var signed := Signed(v);
      text := DigitsOf(if signed < 0 then -signed else signed, 10, false);
      if signed < 0 {
        text := text + "-";
      }
    } else {
      text := DigitsOf(Unsigned(v), if ch == 'b' then 2 else if ch == 'u' then 10 else 16, ch == 'X');
    }
    k := AddDigits(buf, p, room, text, d);
  }

  /** How a directive ends: well, with a parameter error, or where nothing is followed any more. */
  datatype Outcome = Fine | Error | Astray

  /** What a directive with one parameter writes. */
  method AddParam(env: Env, buf: array<char>, p: nat, room: nat, param: Param, d: Spec, ch: char)
    returns (o: Outcome, k: nat)
    requires p + room <= buf.Length && room > 0 && TakesParam(ch)
    modifies buf
    ensures match Converted(env, param, d, ch, room)
            case Text(s) =>
              o == Fine && k == |Take(s, room)| && Wrote(old(buf[..]), buf[..], p, Take(s, room), room)
            case Missing => o == Error && buf[..] == old(buf[..])
            case Runaway => o == Astray
  {
    hide Wrote, NumberField, StringField, NumberText;
    o, k := Fine, 0;
    if IsNumber(ch) {
      k := AddNumber(buf, p, room, ch, param.value, d);
    } else if ch == 'c' {
      Put(buf, p, (param.value % 256) as char, room);
      k := 1;
    } else if ch == 'f' {
      k := Copy(buf, p, room, env.floating(param.value, d));
    } else {
      var s := if ch == 's' then Some(param.str) else StringOf(env, param, ch);
      if s.None? {
        return Error, 0;
      }
      var ok;
      ok, k := AddString(buf, p, room, s.value, d);
      o := if ok then Fine else Astray;
    }
  }

  method ReadNumber(fmt: string, pos: nat) returns (n: int, next: nat)
    requires pos <= |fmt|
    ensures (n, next) == NumberAt(fmt, pos, 0)
  {
    n, next := 0, pos;
    while next < |fmt| && IsDigit(fmt[next])
      invariant pos <= next <= |fmt| && NumberAt(fmt, pos, 0) == NumberAt(fmt, next, n)
    {
      n := Signed(10 * n + (fmt[next] as int - '0' as int));
      next := next + 1;
    }
  }

  method ReadDirective(fmt: string, pos: nat) returns (d: Spec)
    requires pos <= |fmt|
    ensures d == Directive(fmt, pos, Plain)
  {
    d := Plain;
    var p := pos;
    while p < |fmt| && (fmt[p] in "-." || IsDigit(fmt[p]))
      invariant pos <= p <= |fmt| && Directive(fmt, pos, Plain) == Directive(fmt, p, d)
      decreases |fmt| - p
    {
      if fmt[p] == '-' {
        d := d.(left := true);
        p := p + 1;
      } else if fmt[p] == '.' {
        var n, next := ReadNumber(fmt, p + 1);
        d := d.(prec := if n < 0 then -1 else n);
        p := next;
      } else if fmt[p] == '0' {
        d := d.(zero := true);
        p := p + 1;
      } else {
        var n, next := ReadNumber(fmt, p);
        d := d.(width := n);
        p := next;
      }
    }
    d := if p == |fmt| then d.(ch := None, next := p) else d.(ch := Some(fmt[p]), next := p + 1);
  }

  lemma FmtEnds(env: Env, params: seq<Param>, fmt: string, pos: nat, arg: nat, before: string, out: string, max: nat)
    requires pos <= |fmt| && |out| <= max && arg >= 1 && (pos == |fmt| || |out| == max)
    ensures Fmt(env, params, fmt, pos, arg, before, out, max) == Ended(before, out, max, arg)
  {
  }

  lemma FmtCharacter(env: Env, params: seq<Param>, fmt: string, pos: nat, arg: nat, before: string, out: string,
                     max: nat)
    requires pos < |fmt| && |out| < max && arg >= 1 && fmt[pos] != '%'
    ensures Fmt(env, params, fmt, pos, arg, before, out, max)
         == Fmt(env, params, fmt, pos + 1, arg, before, out + [fmt[pos]], max)
  {
  }

  lemma FmtDirective(env: Env, params: seq<Param>, fmt: string, pos: nat, arg: nat, before: string, out: string,
                     max: nat)
    requires pos < |fmt| && |out| < max && arg >= 1 && fmt[pos] == '%'
    ensures var d := Directive(fmt, pos + 1, Plain);
            if d.ch.None? then Fmt(env, params, fmt, pos, arg, before, out, max) == Ended(before, out + "%", max, arg)
            else
              pos < d.next <= |fmt|
              && Fmt(env, params, fmt, pos, arg, before, out, max)
              == match Piece(env, params, d, d.ch.value, arg, before + out, max - |out|)
                 case Done(text, next) => Fmt(env, params, fmt, d.next, next, before, out + text, max)
                 case Failed => Failed
                 case _ => Lost
  {
  }

  /** Characters that begin no directive are written as they are. */
  lemma {:induction false} FmtPlain(env: Env, params: seq<Param>, fmt: string, pos: nat, arg: nat, before: string,
                                    out: string, max: nat, k: nat)
    requires pos + k <= |fmt| && arg >= 1 && |out| + k <= max && forall i :: pos <= i < pos + k ==> fmt[i] != '%'
    ensures Fmt(env, params, fmt, pos, arg, before, out, max)
         == Fmt(env, params, fmt, pos + k, arg, before, out + fmt[pos..pos + k], max)
    decreases k
  {
    hide Fmt;
    if k == 0 {
      assert out + fmt[pos..pos] == out;
    } else {
      FmtCharacter(env, params, fmt, pos, arg, before, out, max);
      FmtPlain(env, params, fmt, pos + 1, arg, before, out + [fmt[pos]], max, k - 1);
      assert (out + [fmt[pos]]) + fmt[pos + 1..pos + k] == out + fmt[pos..pos + k];
    }
  }

  /** The characters up to the next directive. */
  method CopyPlain(fmt: string, buf: array<char>, p: nat, room: nat, pos: nat) returns (k: nat)
    requires pos <= |fmt| && p + room <= buf.Length
    modifies buf
    ensures k <= room && pos + k <= |fmt| && Wrote(old(buf[..]), buf[..], p, fmt[pos..pos + k], room)
    ensures k == room || pos + k == |fmt| || fmt[pos + k] == '%'
    ensures forall i :: pos <= i < pos + k ==> fmt[i] != '%'
  {
    k := 0;
    while k < room && pos + k < |fmt| && fmt[pos + k] != '%'
      invariant k <= room && pos + k <= |fmt| && Wrote(old(buf[..]), buf[..], p, fmt[pos..pos + k], room)
      invariant forall i :: pos <= i < pos + k ==> fmt[i] != '%'
    {
      ghost var before := buf[..];
      Put(buf, p + k, fmt[pos + k], room - k);
      WroteThen(old(buf[..]), before, buf[..], p, fmt[pos..pos + k], [fmt[pos + k]], room);
      assert fmt[pos..pos + k] + [fmt[pos + k]] == fmt[pos..pos + k + 1];
      k := k + 1;
    }
  }

  /** One directive. A translation that fails may leave characters behind, which are written over. */
  method AddPiece(env: Env, params: seq<Param>, buf: array<char>, p: nat, room: nat, d: Spec, ch: char, arg: nat)
    returns (o: Outcome, k: nat, arg': nat)
    requires p + room < buf.Length && room > 0 && arg >= 1
    modifies buf
    ensures match Piece(env, params, d, ch, arg, old(buf[..p]), room)
            case Done(text, next) =>
              o == Fine && k == |text| && arg' == next && Wrote(old(buf[..]), buf[..], p, text, room + 1)
            case Failed => o == Error && buf[..] == old(buf[..])
            case _ => o == Astray
    decreases Unread(params, arg), 1
  {
    hide Wrote, Converted, Translation;
    o, k, arg' := Fine, 0, arg;
    if ch == 'L' || ch == 'l' {
      if arg + ParamsOf(ch) - 1 > |params| {
        return Error, 0, arg;
      }
      o, k, arg' := AddTranslation(env, params, buf, p, room, ch, arg);
    } else if !TakesParam(ch) {
      Put(buf, p, ch, room + 1);
      k := 1;
    } else if arg > |params| {
      o := Error;
    } else {
      o, k := AddParam(env, buf, p, room, params[arg - 1], d, ch);
      if o.Fine? {
        WroteLess(old(buf[..]), buf[..], p, Take(Converted(env, params[arg - 1], d, ch, room).s, room), room, room + 1);
        arg' := arg + 1;
      }
    }
  }

  method AddTranslation(env: Env, params: seq<Param>, buf: array<char>, p: nat, room: nat, ch: char, arg: nat)
    returns (o: Outcome, k: nat, arg': nat)
    requires p + room < buf.Length && room > 0 && arg >= 1 && (ch == 'L' || ch == 'l')
             && arg + ParamsOf(ch) - 1 <= |params|
    modifies buf
    ensures match Fmt(env, params, Translation(env, params, arg, ch), 0, arg + ParamsOf(ch), old(buf[..p]), "", room)
            case Done(text, next) =>
              o == Fine && k == |text| && arg' == next && Wrote(old(buf[..]), buf[..], p, text, room + 1)
            case Failed =>
              o == Fine && k == 0 && arg' == arg + ParamsOf(ch) && Wrote(old(buf[..]), buf[..], p, "", room + 1)
            case _ => o == Astray
    decreases Unread(params, arg), 0
  {
    hide Wrote, Fmt, Damaged, Excess;
    arg' := arg + ParamsOf(ch);
    ghost var inner := Fmt(env, params, Translation(env, params, arg, ch), 0, arg', buf[..p], "", room);
    var written;
    o, written, arg' := Atcprintf(env, params, Translation(env, params, arg, ch), buf, p, room, arg');
    if written < 0 {
      return Astray, 0, arg;
    }
    k := written;
    if inner.Done? {
      WrotePrefix(old(buf[..]), buf[..], p, inner.out + [NUL], |inner.out|, room + 1);
    }
  }

  /** The buffer is filled, and a cell before it is zero now. */
  ghost predicate Damaged(before: seq<char>, after: seq<char>, start: nat, out: string, at: int) {
    && |after| == |before| && start + |out| < |before| && at < start
    && (forall i {:trigger after[i]} :: 0 <= i < start || start + |out| < i < |after| ==>
          after[i] == if i == at then NUL else before[i])
    && (forall i {:trigger out[i]} :: 0 <= i < |out| ==> after[start + i] == out[i])
    && after[start + |out|] == NUL
  }

  /** The formatter. At most maxlen characters are written, and a terminator after them, or, with a
      parameter error, nothing that counts; the cells outside are untouched, unless the last character is
      not whole and began before the buffer: then a cell there becomes zero, and the result is negative. */
  method Atcprintf(env: Env, params: seq<Param>, fmt: string, buf: array<char>, start: nat, maxlen: nat, arg0: nat)
    returns (o: Outcome, written: int, arg: nat)
    requires start + maxlen < buf.Length && arg0 >= 1
    modifies buf
    ensures match Fmt(env, params, fmt, 0, arg0, old(buf[..start]), "", maxlen)
            case Done(out, next) =>
              o == Fine && written == |out| && arg == next
              && Wrote(old(buf[..]), buf[..], start, out + [NUL], maxlen + 1)
            case Failed =>
              o == Fine && written == 0 && arg == arg0 && Wrote(old(buf[..]), buf[..], start, "", maxlen + 1)
            case Overrun(out, next) =>
              o == Fine && written == |out| - Excess(old(buf[..start]) + out) < 0 && arg == next
              && Damaged(old(buf[..]), buf[..], start, out, start + written)
            case Lost => o == Astray && written == 0
    decreases Unread(params, arg0), 3
  {
    hide Wrote, Piece, Damaged, Ended, Fmt, Directive, Excess;
    ghost var was, before, whole := buf[..], buf[..start], Fmt(env, params, fmt, 0, arg0, buf[..start], "", maxlen);
    WroteNothing(was, start, maxlen + 1);
    o, written, arg := Fine, 0, arg0;
    var pos: nat, n: nat := 0, 0;
    ghost var out := "";
    while true
      invariant o == Fine && pos <= |fmt| && arg0 <= arg && |out| <= maxlen
      invariant Fmt(env, params, fmt, pos, arg, before, out, maxlen) == whole
      invariant n == |out| && Wrote(was, buf[..], start, out, maxlen + 1)
      decreases Unread(params, arg), |fmt| - pos
    {
      var k := AddPlain(env, params, fmt, buf, was, start, maxlen, pos, arg, n, before, out);
      out := out + fmt[pos..pos + k];
      pos, n := pos + k, n + k;
      if pos == |fmt| || n == maxlen {
        FmtEnds(env, params, fmt, pos, arg, before, out, maxlen);
        assert out + "" == out;
        written := Terminate(buf, was, start, maxlen, n, "", arg, before, out);
        return;
      }
      var d := ReadDirective(fmt, pos + 1);
      FmtDirective(env, params, fmt, pos, arg, before, out, maxlen);
      if d.ch.None? {
        written := Terminate(buf, was, start, maxlen, n, "%", arg, before, out);
        return;
      }
      var more, arg';
      o, more, arg', out := AddDirective(env, params, buf, was, start, maxlen, d, d.ch.value, arg, n, before, out);
      if !o.Fine? {
        o := if o.Error? then Fine else o;
        return o, 0, arg0;
      }
      pos, n, arg := d.next, n + more, arg';
    }
  }

  /** A directive behind what was written so far. */
  method AddDirective(env: Env, params: seq<Param>, buf: array<char>, ghost was: seq<char>, start: nat, maxlen: nat,
                      d: Spec, ch: char, arg: nat, written: nat, ghost before: string, ghost out: string)
    returns (o: Outcome, n: nat, arg': nat, ghost out': string)
    requires arg >= 1 && written == |out| < maxlen && Wrote(was, buf[..], start, out, maxlen + 1)
    requires start <= |was| && before == was[..start]
    modifies buf
    ensures match Piece(env, params, d, ch, arg, before + out, maxlen - written)
            case Done(text, next) =>
              o == Fine && n == |text| && arg' == next && out' == out + text
              && Wrote(was, buf[..], start, out', maxlen + 1)
            case Failed => o == Error && Wrote(was, buf[..], start, "", maxlen + 1)
            case _ => o == Astray
    decreases Unread(params, arg), 2
  {
    hide Wrote, Piece;
    ghost var now := buf[..];
    WroteInside(was, now, start, out, maxlen + 1);
    WroteBehind(was, now, start, out, maxlen + 1);
    assert now[..start + written] == buf[..start + written];
    ghost var piece := Piece(env, params, d, ch, arg, before + out, maxlen - written);
    o, n, arg' := AddPiece(env, params, buf, start + written, maxlen - written, d, ch, arg);
    out' := "";
    if o.Fine? {
      WroteThen(was, now, buf[..], start, out, piece.out, maxlen + 1);
      out' := out + piece.out;
    } else if o.Error? {
      WrotePrefix(was, buf[..], start, out, 0, maxlen + 1);
    }
  }

  method AddPlain(ghost env: Env, ghost params: seq<Param>, fmt: string, buf: array<char>, ghost was: seq<char>,
                  start: nat, maxlen: nat, pos: nat, ghost arg: nat, written: nat, ghost before: string,
                  ghost out: string)
    returns (k: nat)
    requires pos <= |fmt| && arg >= 1 && written == |out| <= maxlen && Wrote(was, buf[..], start, out, maxlen + 1)
    modifies buf
    ensures pos + k <= |fmt| && written + k <= maxlen
    ensures written + k == maxlen || pos + k == |fmt| || fmt[pos + k] == '%'
    ensures Wrote(was, buf[..], start, out + fmt[pos..pos + k], maxlen + 1)
    ensures Fmt(env, params, fmt, pos, arg, before, out, maxlen)
         == Fmt(env, params, fmt, pos + k, arg, before, out + fmt[pos..pos + k], maxlen)
  {
    hide Wrote, Fmt;
    ghost var now := buf[..];
    WroteInside(was, now, start, out, maxlen + 1);
    var room := maxlen - written;
    k := CopyPlain(fmt, buf, start + written, room, pos);
    FmtPlain(env, params, fmt, pos, arg, before, out, maxlen, k);
    WroteLess(now, buf[..], start + written, fmt[pos..pos + k], room, room + 1);
    WroteThen(was, now, buf[..], start, out, fmt[pos..pos + k], maxlen + 1);
  }

  /** The end of the output, and the terminator; then the test of the last character. */
  method Terminate(buf: array<char>, ghost was: seq<char>, start: nat, maxlen: nat, n: nat, last: string,
                   ghost arg: nat, ghost before: string, ghost out: string)
    returns (written: int)
    requires n == |out| && n + |last| <= maxlen && Wrote(was, buf[..], start, out, maxlen + 1)
    requires start <= |was| && before == was[..start]
    modifies buf
    ensures match Ended(before, out + last, maxlen, arg)
            case Done(text, _) => written == |text| && Wrote(was, buf[..], start, text + [NUL], maxlen + 1)
            case Overrun(text, _) =>
              written == |text| - Excess(before + text) < 0 && Damaged(was, buf[..], start, text, start + written)
            case _ => false
  {
    hide Wrote, Damaged, Excess;
    ghost var now := buf[..];
    WroteInside(was, now, start, out, maxlen + 1);
    var k := Copy(buf, start + n, maxlen + 1 - n, last);
    WroteThen(was, now, buf[..], start, out, last, maxlen + 1);
    now := buf[..];
    var p := start + n + k;
    Put(buf, p, NUL, maxlen + 1 - n - k);
    WroteThen(was, now, buf[..], start, out + last, [NUL], maxlen + 1);
    written := TrimEnd(buf, was, start, maxlen, n + k, before, out + last);
  }

  /** If the room is used up, a character that is not whole is taken off, and the terminator stands there. */
  method TrimEnd(buf: array<char>, ghost was: seq<char>, start: nat, maxlen: nat, n: nat, ghost before: string,
                 ghost text: string)
    returns (written: int)
    requires n == |text| <= maxlen && Wrote(was, buf[..], start, text + [NUL], maxlen + 1)
    requires start <= |was| && before == was[..start]
    modifies buf
    ensures var cut := if |text| == maxlen then Excess(before + text) else 0;
            && written == |text| - cut
            && if written >= 0 then Wrote(was, buf[..], start, text[..written] + [NUL], maxlen + 1)
               else Damaged(was, buf[..], start, text, start + written)
  {
    hide Wrote, Damaged, Incomplete, High;
    var p := start + n;
    WroteBehind(was, buf[..], start, text + [NUL], maxlen + 1);
    ghost var now := buf[..];
    assert buf[..p] == before + text;
    written := n;
    if n == maxlen && p > 0 && High(buf[p - 1]) {
      var cut := CheckValidChar(buf[..p]);
      written := n - cut;
      if start + written >= 0 {
        buf[start + written] := NUL;
      }
    }
    Trimmed(was, now, buf[..], start, text, maxlen + 1, written);
  }

  lemma Trimmed(was: seq<char>, now: seq<char>, cut: seq<char>, start: nat, text: string, room: nat, written: int)
    requires Wrote(was, now, start, text + [NUL], room) && written <= |text|
    requires cut == if start + written >= 0 then now[start + written := NUL] else now
    requires written < 0 ==> room == |text| + 1
    ensures if written >= 0 then Wrote(was, cut, start, text[..written] + [NUL], room)
            else Damaged(was, cut, start, text, start + written)
  {
    assert now[start + |text|] == (text + [NUL])[|text|];
    forall i {:trigger text[i]} | 0 <= i < |text| ensures now[start + i] == text[i] {
      assert (text + [NUL])[i] == text[i];
    }
  }
}
