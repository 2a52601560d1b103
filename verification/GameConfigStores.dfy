/**
 What the game-config reader stores for the running game: whose sections it reads, and what keys, addresses and
 checksums come to.
 */
module GameConfigStores {
  import opened Basics
  import opened Smc
  import opened GameConfig
  import opened GameConfigLaws
  import SmcLayout

  /** The reader stands where it can open a section of a game or of a class. */
  predicate InGame(c: Config) {
    c.ignore == 0 && c.custom == 0 && ((c.state.GameDefs? && !c.matched) || (c.state.Class? && c.matched))
  }

  // ---------- Whose sections are read ----------

  /** Among the games, the section for all, the default section and that of the running game are entered; any other
      leaves no trace. */
  lemma GameIsEntered(c: Config, name: string, body: seq<Node>, env: Env)
    requires c.state.Games? && c.ignore == 0 && c.custom == 0
    ensures if name in {"*", "#default", env.game} then
              OpenSection(c, name, env) == c.(state := GameDefs, cls := "", matched := false, game := Clip(name, 256),
                                              checks := c.checks.(reading := true))
            else Run(c, EventsOf(Section(name, body)), env) == c
  {
    if name !in {"*", "#default", env.game} {
      IgnoredSectionLeavesNoTrace(c, name, body, env);
    }
  }

  // ---------- Keys ----------

  /** One line after the other, the later one for the same key in place of the earlier one. */
  ghost predicate KeysFrom(before: map<string, string>, lines: seq<(string, string)>, after: map<string, string>) {
    forall key ::
      if LastOf(lines, key).Some? then key in after && after[key] == LastOf(lines, key).value
      else (key in after <==> key in before) && (key in before ==> after[key] == before[key])
  }

  lemma {:induction false} KeysRead(c: Config, lines: seq<(string, string)>, env: Env)
    requires c.state.Keys? && c.ignore == 0
    ensures var c' := ReadLines(c, lines, env);
            c' == c.(store := c.store.(keys := c'.store.keys)) && KeysFrom(c.store.keys, lines, c'.store.keys)
  {
    if lines != [] {
      KeysRead(c, lines[..|lines| - 1], env);
    }
  }

  /** A section of keys stores each of its keys with the value of its last line, and nothing else changes. */
  lemma KeysAreStored(c: Config, body: seq<Node>, env: Env)
    requires InGame(c)
    ensures var c' := Run(c, EventsOf(Section("Keys", body)), env);
            c' == c.(store := c.store.(keys := c'.store.keys)) && KeysFrom(c.store.keys, Lines(body), c'.store.keys)
  {
    hide ReadLines, Lines, Run, KeysFrom;
    var c1 := c.(state := Keys);
    assert OpenSection(c, "Keys", env) == c1;
    RunSection(c, "Keys", body, env);
    LeafReads(c1, body, env);
    KeysRead(c1, Lines(body), env);
  }

  /** A file with the keys of one game, laid out in any way. */
  function KeysFile(game: string, body: seq<Node>): seq<Node> {
    [Section("Games", [Section(game, [Section("Keys", body)])])]
  }

  lemma KeysOfGame(c: Config, game: string, body: seq<Node>, env: Env)
    requires c.state.Games? && c.ignore == 0 && c.custom == 0
    ensures var c' := Run(c, EventsOf(Section(game, [Section("Keys", body)])), env);
            && c'.state.Games? && c'.ignore == 0 && c'.custom == 0
            && c'.store == c.store.(keys := c'.store.keys)
            && if game in {"*", "#default", env.game} then KeysFrom(c.store.keys, Lines(body), c'.store.keys)
               else c'.store.keys == c.store.keys
  {
    hide Run, Lines, KeysFrom, EventsOf, OpenSection, CloseSection;
    var inner := [Section("Keys", body)];
    GameIsEntered(c, game, inner, env);
    if game in {"*", "#default", env.game} {
      var c1 := OpenSection(c, game, env);
      RunSection(c, game, inner, env);
      OneNode(inner[0]);
      KeysAreStored(c1, body, env);
      GameEnds(Run(c1, Events(inner), env), env);
    }
  }

  lemma OneNode(node: Node)
    ensures Events([node]) == EventsOf(node)
  {
    assert [node][1..] == [];
  }

  lemma GameEnds(c: Config, env: Env)
    requires c.state.GameDefs? && c.ignore == 0 && c.custom == 0
    ensures CloseSection(c, env) == c.(state := Games)
  {
  }

  lemma GamesEnd(c: Config, env: Env)
    requires c.state.Games? && c.ignore == 0 && c.custom == 0
    ensures CloseSection(c, env) == c.(state := Outside)
  {
  }

  lemma GamesOpen(c: Config, env: Env)
    requires Fresh(c)
    ensures OpenSection(c, "Games", env) == c.(state := Games)
  {
  }

  /** The keys of a file for one game, however the file is laid out, are stored exactly if the game is the running one
      or the file speaks of all games or the default. */
  lemma KeysOfFile(c: Config, items: seq<SmcLayout.Item>, last: seq<SmcLayout.Filler>, game: string, body: seq<Node>,
                   env: Env)
    requires Fresh(c) && SmcLayout.LayoutOk(items, false) && SmcLayout.FillersOk(last)
    requires SmcLayout.Document(items) == KeysFile(game, body)
    ensures var text := SmcLayout.Layout(items) + SmcLayout.Filling(last);
            && Parse(text, Start).1.Okay?
            && var c' := Run(c, Parse(text, Start).0, env);
               && Fresh(c') && c'.store == c.store.(keys := c'.store.keys)
               && if game in {"*", "#default", env.game} then KeysFrom(c.store.keys, Lines(body), c'.store.keys)
                  else c'.store.keys == c.store.keys
  {
    hide Run, Lines, KeysFrom, Parse, EventsOf, OpenSection, CloseSection, SmcLayout.LayoutOk, SmcLayout.Layout,
         SmcLayout.Filling, SmcLayout.FillersOk, SmcLayout.Document;
    SmcLayout.LayoutDoesNotMatter(items, last);
    var inner := [Section(game, [Section("Keys", body)])];
    OneNode(Section("Games", inner));
    OneNode(inner[0]);
    var c1 := c.(state := Games);
    GamesOpen(c, env);
    RunSection(c, "Games", inner, env);
    KeysOfGame(c1, game, body, env);
    GamesEnd(Run(c1, Events(inner), env), env);
  }

  // ---------- Offsets ----------

  /** What the lines of an offset say of its field, besides the number for the platform. */
  predicate Described(e: Desc, lines: seq<(string, string)>, env: Env) {
    && e.fieldType == (var t := LastOf(lines, "type"); if t.Some? && t.value in env.fieldTypes then t.value else "")
    && e.size == (var n := LastOf(lines, "size"); if n.Some? && env.number(n.value) > 0 then env.number(n.value) else 0)
    && (e.isUnsigned <==> var u := LastOf(lines, "unsigned"); u.Some? && env.number(u.value) != 0)
  }

  lemma DescriptionLine(c: Config, key: string, value: string, env: Env)
    requires PlainNames(env) && c.state.Offset? && c.ignore == 0
    ensures ReadKey(c, key, value, env) == c.(entry := ReadKey(c, key, value, env).entry)
    ensures var d, d' := c.entry.desc, ReadKey(c, key, value, env).entry.desc;
            && d'.fieldType == (if key == "type" then if value in env.fieldTypes then value else "" else d.fieldType)
            && d'.size == (if key == "size" then if env.number(value) > 0 then env.number(value) else 0 else d.size)
            && d'.isUnsigned == if key == "unsigned" then env.number(value) != 0 else d.isUnsigned
  {
  }

  lemma {:induction false} DescriptionRead(c: Config, lines: seq<(string, string)>, env: Env)
    requires PlainNames(env) && c.state.Offset? && c.ignore == 0 && c.entry.desc == NoDesc
    ensures ReadLines(c, lines, env) == c.(entry := ReadLines(c, lines, env).entry)
    ensures Described(ReadLines(c, lines, env).entry.desc, lines, env)
  {
    hide ReadKey, PlainNames;
    if lines != [] {
      var front, last := lines[..|lines| - 1], lines[|lines| - 1];
      DescriptionRead(c, front, env);
      DescriptionLine(ReadLines(c, front, env), last.0, last.1, env);
    }
  }

  lemma OffsetEnds(c: Config, env: Env)
    requires c.state.Offset? && c.ignore == 0 && c.custom == 0
    ensures CloseSection(c, env).store
         == if !c.entry.found then c.store
            else if c.cls != "" then
              c.store.(classOffsets := c.store.classOffsets[(c.cls, c.entry.name) := c.entry.desc])
            else c.store.(offsets := c.store.offsets[c.entry.name := c.entry.desc])
  {
  }

  /** An offset's section with a number for this platform stores just one offset, for the class if there is one, and
      with it the type, the size and the sign that its last lines for these give. */
  lemma OffsetIsDescribed(c: Config, name: string, body: seq<Node>, env: Env) returns (d: Desc)
    requires PlainNames(env) && c.state.Offsets? && c.ignore == 0 && c.custom == 0 && Chosen(Lines(body), env).Some?
    ensures Described(d, Lines(body), env) && d.offset == env.number(Chosen(Lines(body), env).value)
    ensures Run(c, EventsOf(Section(name, body)), env).store
         == if c.cls != "" then c.store.(classOffsets := c.store.classOffsets[(c.cls, Clip(name, 64)) := d])
            else c.store.(offsets := c.store.offsets[Clip(name, 64) := d])
  {
    hide Run, ReadLines, Lines, Chosen, Described, Clip, PlainNames, CloseSection;
    var c1 := c.(state := Offset,
                 entry := c.entry.(name := Clip(name, 64), desc := NoDesc, primary := false, found := false));
    assert OpenSection(c, name, env) == c1;
    RunSection(c, name, body, env);
    LeafReads(c1, body, env);
    OffsetRead(c1, Lines(body), env);
    DescriptionRead(c1, Lines(body), env);
    d := ReadLines(c1, Lines(body), env).entry.desc;
    OffsetEnds(ReadLines(c1, Lines(body), env), env);
  }

  // ---------- Addresses ----------

  /** The lines of an address for this platform: its own, and those in the platform's sections, in their order. */
  function AddressLines(body: seq<Node>, env: Env): seq<(string, string)> {
    if body == [] then []
    else (match body[0]
          case Key(k, v) => [(k, v)]
          case Section(name, inner) => if name == env.platform then Lines(inner) else [])
         + AddressLines(body[1..], env)
  }

  /** The numbers of the read lines. */
  function Reads(lines: seq<(string, string)>, env: Env): seq<int> {
    if lines == [] then []
    else
      var (key, value) := lines[|lines| - 1];
      Reads(lines[..|lines| - 1], env) + (if key == "read" then [env.number(value)] else [])
  }

  /** An address keeps eight of them. */
  function FirstEight(numbers: seq<int>): seq<int> {
    if |numbers| <= 8 then numbers else numbers[..8]
  }

  lemma EightMore(numbers: seq<int>, n: int)
    ensures FirstEight(numbers + [n])
         == if |FirstEight(numbers)| < 8 then FirstEight(numbers) + [n] else FirstEight(numbers)
  {
  }

  /** The text of the last signature line. */
  function SignatureOf(lines: seq<(string, string)>): Option<string> {
    LastOf(lines, "signature")
  }

  lemma AddressLine(c: Config, key: string, value: string, env: Env)
    requires (c.state.Address? || c.state.Read?) && c.ignore == 0
    ensures ReadKey(c, key, value, env)
         == c.(entry := c.entry.(addressSig := if key == "signature" then Clip(value, 64) else c.entry.addressSig,
                                 readOffsets := if key == "read" && |c.entry.readOffsets| < 8 then
                                                  c.entry.readOffsets + [env.number(value)]
                                                else c.entry.readOffsets))
  {
  }

  /** An entry with its signature and its numbers read from lines. */
  predicate AddressRead(c: Config, lines: seq<(string, string)>, c': Config, env: Env) {
    c' == c.(entry := c.entry.(addressSig := Clipped(SignatureOf(lines), 64),
                               readOffsets := FirstEight(Reads(lines, env))))
  }

  lemma {:induction false} AddressReads(c: Config, lines: seq<(string, string)>, env: Env)
    requires c.state.Address? && c.ignore == 0 && c.entry.readOffsets == [] && c.entry.addressSig == ""
    ensures AddressRead(c, lines, ReadLines(c, lines, env), env)
  {
    hide Clip, ReadKey, FirstEight;
    if lines == [] {
      NoneRead();
    } else {
      var front, last := lines[..|lines| - 1], lines[|lines| - 1];
      AddressReads(c, front, env);
      AddressLine(ReadLines(c, front, env), last.0, last.1, env);
      EightMore(Reads(front, env), env.number(last.1));
      assert Reads(front, env) + [] == Reads(front, env);
    }
  }

  lemma NoneRead()
    ensures FirstEight([]) == []
  {
  }

  /** The platform's section has the effect of its lines. */
  lemma {:induction false} ReadAlike(c: Config, lines: seq<(string, string)>, env: Env)
    requires c.state.Address? && c.ignore == 0
    ensures ReadLines(c.(state := Read), lines, env) == ReadLines(c, lines, env).(state := Read)
    ensures ReadLines(c, lines, env) == c.(entry := ReadLines(c, lines, env).entry)
  {
    hide ReadKey;
    if lines != [] {
      var front, last := lines[..|lines| - 1], lines[|lines| - 1];
      ReadAlike(c, front, env);
      AddressLine(ReadLines(c, front, env), last.0, last.1, env);
      AddressLine(ReadLines(c.(state := Read), front, env), last.0, last.1, env);
    }
  }

  lemma AddressSection(c: Config, name: string, inner: seq<Node>, env: Env)
    requires c.state.Address? && c.ignore == 0 && c.custom == 0
    ensures Run(c, EventsOf(Section(name, inner)), env)
         == if name == env.platform then ReadLines(c, Lines(inner), env) else c
  {
    hide ReadLines, Lines, Run;
    if name == env.platform {
      var c1 := c.(state := Read);
      RunSection(c, name, inner, env);
      LeafReads(c1, inner, env);
      ReadAlike(c, Lines(inner), env);
    } else {
      IgnoredSectionLeavesNoTrace(c, name, inner, env);
    }
  }

  lemma {:induction false} ReadBoth(c: Config, a: seq<(string, string)>, b: seq<(string, string)>, env: Env)
    ensures ReadLines(c, a + b, env) == ReadLines(ReadLines(c, a, env), b, env)
  {
    hide ReadKey;
    if b == [] {
      assert a + b == a;
    } else {
      assert (a + b)[..|a + b| - 1] == a + b[..|b| - 1];
      ReadBoth(c, a, b[..|b| - 1], env);
    }
  }

  lemma {:induction false} AddressBody(c: Config, body: seq<Node>, env: Env)
    requires c.state.Address? && c.ignore == 0 && c.custom == 0
    ensures Run(c, Events(body), env) == ReadLines(c, AddressLines(body, env), env)
    decreases |body|
  {
    hide Run, ReadKey, ReadLines, Lines;
    if body == [] {
      RunNone(c, env);
    } else {
      RunAppend(c, EventsOf(body[0]), Events(body[1..]), env);
      var lines := AddressFirst(c, body, env);
      ReadAlike(c, lines, env);
      AddressBody(ReadLines(c, lines, env), body[1..], env);
      ReadBoth(c, lines, AddressLines(body[1..], env), env);
    }
  }

  lemma AddressFirst(c: Config, body: seq<Node>, env: Env) returns (lines: seq<(string, string)>)
    requires c.state.Address? && c.ignore == 0 && c.custom == 0 && body != []
    ensures AddressLines(body, env) == lines + AddressLines(body[1..], env)
    ensures Run(c, EventsOf(body[0]), env) == ReadLines(c, lines, env)
  {
    hide Run, ReadKey, Lines;
    match body[0]
    case Key(k, v) =>
      lines := [(k, v)];
      RunOne(c, KeyValue(k, v), env);
      assert lines[..0] == [] && ReadLines(c, lines[..0], env) == c;
    case Section(name, inner) =>
      lines := if name == env.platform then Lines(inner) else [];
      AddressSection(c, name, inner, env);
  }

  /** What an address's section stores: under its name, the signature that the last line for it gives, and the first
      eight numbers to read; nothing without a name or a signature. Sections of other platforms do not count. */
  lemma AddressForPlatform(c: Config, name: string, body: seq<Node>, env: Env)
    requires c.state.Addresses? && c.ignore == 0 && c.custom == 0
    ensures var c', lines := Run(c, EventsOf(Section(name, body)), env), AddressLines(body, env);
            var key, signature := Clip(name, 64), Clipped(SignatureOf(lines), 64);
            && c'.state.Addresses? && c'.ignore == 0 && c'.custom == 0
            && c'.store == if key == "" || signature == "" then c.store
                           else c.store.(addresses := c.store.addresses[key := (signature,
                                                                                FirstEight(Reads(lines, env)))])
  {
    hide Run, ReadLines, AddressLines, SignatureOf, Clipped, Clip, FirstEight, Reads;
    var c1 := c.(state := Address, entry := c.entry.(address := Clip(name, 64), addressSig := "", readOffsets := []));
    assert OpenSection(c, name, env) == c1;
    RunSection(c, name, body, env);
    AddressBody(c1, body, env);
    AddressReads(c1, AddressLines(body, env), env);
  }

  // ---------- Sections of entries ----------

  /** The sections that hold entries, by their names. */
  predicate HoldsEntries(kind: string, state: PState) {
    || (kind == "Offsets" && state == Offsets)
    || (kind == "Signatures" && state == Signatures)
    || (kind == "Addresses" && state == Addresses)
  }

  /** Entered from a game or a class, a section of entries comes to what its entries store, one after the other, and the
      reader is back where it was. */
  lemma SectionOfEntries(c: Config, kind: string, state: PState, body: seq<Node>, env: Env)
    requires InGame(c) && Placed(c) && HoldsEntries(kind, state)
    ensures Run(c, EventsOf(Section(kind, body)), env)
         == Run(c.(state := state), Events(body), env).(state := c.state)
  {
    hide Run, OpenSection, CloseSection, Events, EventsOf, Placed;
    var c1 := c.(state := state);
    EntriesOpen(c, kind, state, env);
    RunSection(c, kind, body, env);
    EntriesStay(c, c1, body, env);
    EntriesClose(c, Run(c1, Events(body), env), env);
  }

  lemma EntriesOpen(c: Config, kind: string, state: PState, env: Env)
    requires InGame(c) && HoldsEntries(kind, state)
    ensures OpenSection(c, kind, env) == c.(state := state)
  {
  }

  /** Whatever the entries, the reader stays in their section. */
  lemma EntriesStay(c: Config, c1: Config, body: seq<Node>, env: Env)
    requires InGame(c) && Placed(c) && (c1.state.Offsets? || c1.state.Signatures? || c1.state.Addresses?)
    requires c1 == c.(state := c1.state)
    ensures var c' := Run(c1, Events(body), env);
            c'.state == c1.state && c'.ignore == 0 && c'.custom == 0 && c'.matched == c.matched
  {
    hide Run, Events;
    SafeKeeps(c1, body, env);
    SectionsReturn(c1, body, env);
  }

  lemma EntriesClose(c: Config, c': Config, env: Env)
    requires InGame(c) && (c'.state.Offsets? || c'.state.Signatures? || c'.state.Addresses?)
    requires c'.ignore == 0 && c'.custom == 0 && c'.matched == c.matched
    ensures CloseSection(c', env) == c'.(state := c.state)
  {
  }

  /** A class of a game is entered under its name, and left again for the game. */
  lemma ClassIsEntered(c: Config, cls: string, env: Env)
    requires c.state.GameDefs? && !c.matched && c.cls == "" && c.ignore == 0 && c.custom == 0
    ensures OpenSection(OpenSection(c, "Classes", env), cls, env)
         == c.(state := Class, cls := Clip(cls, 64), matched := true)
    ensures InGame(c.(state := Class, cls := Clip(cls, 64), matched := true))
    ensures var c' := c.(state := Class, cls := Clip(cls, 64), matched := true);
            CloseSection(CloseSection(c', env), env) == c
  {
  }

  // ---------- Checksums ----------

  /** Some line gives this checksum for the platform. */
  ghost predicate GivesCrc(lines: seq<(string, string)>, crc: int, env: Env) {
    exists i {:trigger lines[i]} :: 0 <= i < |lines| && lines[i].0 == env.platform && env.hex(lines[i].1) == crc
  }

  /** The section names a binary whose checksum is known, and gives it for the platform. */
  ghost predicate BinaryMatches(node: Node, env: Env) {
    node.Section? && env.binary(node.name).WithCrc? && GivesCrc(Lines(node.body), env.binary(node.name).crc, env)
  }

  ghost predicate SomeBinaryMatches(body: seq<Node>, env: Env) {
    exists i {:trigger body[i]} :: 0 <= i < |body| && BinaryMatches(body[i], env)
  }

  lemma CrcMore(lines: seq<(string, string)>, crc: int, env: Env)
    requires lines != []
    ensures var n := |lines| - 1;
            GivesCrc(lines, crc, env)
            <==> GivesCrc(lines[..n], crc, env) || (lines[n].0 == env.platform && env.hex(lines[n].1) == crc)
  {
    var front := lines[..|lines| - 1];
    if i :| 0 <= i < |front| && front[i].0 == env.platform && env.hex(front[i].1) == crc {
      assert lines[i] == front[i];
    }
    if i :| 0 <= i < |lines| && lines[i].0 == env.platform && env.hex(lines[i].1) == crc && i < |lines| - 1 {
      assert lines[i] == front[i];
    }
  }

  lemma {:induction false} CrcReads(c: Config, lines: seq<(string, string)>, env: Env)
    requires c.state.CrcBinary? && c.ignore == 0 && c.checks.binValid
    ensures ReadLines(c, lines, env)
         == c.(checks := c.checks.(reading := c.checks.reading || GivesCrc(lines, c.checks.binCrc, env)))
  {
    hide GivesCrc;
    if lines == [] {
      NoneGives(c.checks.binCrc, env);
    } else {
      CrcReads(c, lines[..|lines| - 1], env);
      CrcMore(lines, c.checks.binCrc, env);
    }
  }

  lemma NoneGives(crc: int, env: Env)
    ensures !GivesCrc([], crc, env)
  {
  }

  /** From one state to another, nothing but the checks changes, and these come to apply if m holds. */
  predicate Checked(c: Config, c': Config, m: bool) {
    c' == c.(checks := c'.checks) && c'.checks.reading == (c.checks.reading || m)
  }

  lemma KnownBinary(c: Config, name: string, inner: seq<Node>, crc: int, env: Env)
    requires c.state.Crc? && c.ignore == 0 && c.custom == 0 && env.binary(name) == WithCrc(crc)
    ensures Checked(c, Run(c, EventsOf(Section(name, inner)), env), GivesCrc(Lines(inner), crc, env))
  {
    hide Run, Lines, ReadLines, GivesCrc;
    var c1 := c.(state := CrcBinary, checks := c.checks.(binValid := true, binCrc := crc));
    assert OpenSection(c, name, env) == c1;
    RunSection(c, name, inner, env);
    LeafReads(c1, inner, env);
    CrcReads(c1, Lines(inner), env);
  }

  lemma OtherBinary(c: Config, name: string, inner: seq<Node>, env: Env)
    requires c.state.Crc? && c.ignore == 0 && c.custom == 0 && !env.binary(name).WithCrc?
    ensures Checked(c, Run(c, EventsOf(Section(name, inner)), env), false)
  {
    hide Run, CloseSection, Events;
    var c2 := c.(checks := c.checks.(binValid := false));
    assert OpenSection(c, name, env) == OpenSection(c2, name, env) == c2.(ignore := 1);
    RunSection(c, name, inner, env);
    RunSection(c2, name, inner, env);
    IgnoredSectionLeavesNoTrace(c2, name, inner, env);
  }

  lemma CrcSection(c: Config, node: Node, env: Env)
    requires c.state.Crc? && c.ignore == 0 && c.custom == 0
    ensures Checked(c, Run(c, EventsOf(node), env), BinaryMatches(node, env))
  {
    hide Run, Lines, GivesCrc, OpenSection, CloseSection;
    match node
    case Key(k, v) => RunOne(c, KeyValue(k, v), env);
    case Section(name, inner) =>
      if env.binary(name).WithCrc? {
        KnownBinary(c, name, inner, env.binary(name).crc, env);
      } else {
        OtherBinary(c, name, inner, env);
      }
  }

  lemma {:induction false} CrcBody(c: Config, body: seq<Node>, env: Env)
    requires c.state.Crc? && c.ignore == 0 && c.custom == 0
    ensures Checked(c, Run(c, Events(body), env), SomeBinaryMatches(body, env))
    decreases |body|
  {
    hide Run, BinaryMatches, EventsOf;
    if body == [] {
      RunNone(c, env);
    } else {
      RunAppend(c, EventsOf(body[0]), Events(body[1..]), env);
      CrcSection(c, body[0], env);
      CrcBody(Run(c, EventsOf(body[0]), env), body[1..], env);
      FirstOrRest(body, env);
    }
  }

  lemma FirstOrRest(body: seq<Node>, env: Env)
    requires body != []
    ensures SomeBinaryMatches(body, env) <==> BinaryMatches(body[0], env) || SomeBinaryMatches(body[1..], env)
  {
    hide BinaryMatches;
    if i :| 0 <= i < |body[1..]| && BinaryMatches(body[1..][i], env) {
      assert body[i + 1] == body[1..][i];
    }
    if i :| 0 <= i < |body| && BinaryMatches(body[i], env) && i > 0 {
      assert body[i] == body[1..][i - 1];
    }
  }

  /** When a game section goes on behind its checksums: if some section names a known binary and gives its checksum for
      the platform; otherwise the rest of the game's section is skipped. */
  lemma CrcExactly(c: Config, body: seq<Node>, env: Env)
    requires c.state.GameDefs? && c.ignore == 0 && c.custom == 0
    ensures var c' := Run(c, EventsOf(Section("CRC", body)), env);
            c' == if SomeBinaryMatches(body, env) then c.(checks := c'.checks)
              else c.(state := Games, ignore := 1, checks := c'.checks)
  {
    hide Run, SomeBinaryMatches;
    var c1 := c.(state := Crc, checks := c.checks.(reading := false, binValid := false));
    assert OpenSection(c, "CRC", env) == c1;
    RunSection(c, "CRC", body, env);
    CrcBody(c1, body, env);
  }
}
