/**
 Laws of the game-config reader about documents: which of an entry's lines counts on a platform, and
 documents on which the reader never loses its place.
 */
module GameConfigLaws {
  import opened Basics
  import opened Smc
  import opened GameConfig

  // ---------- Platforms ----------

  function LastOf(lines: seq<(string, string)>, key: string): Option<string> {
    if lines == [] then None
    else if lines[|lines| - 1].0 == key then Some(lines[|lines| - 1].1)
    else LastOf(lines[..|lines| - 1], key)
  }

  /** The value for this platform: the last line with its name, and if there is none, the last line with
      the name accepted in its place. */
  function Chosen(lines: seq<(string, string)>, env: Env): Option<string> {
    if LastOf(lines, env.platform).Some? || env.alternate.None? then LastOf(lines, env.platform)
    else LastOf(lines, env.alternate.value)
  }

  /** The names of platforms are not those of other keys. */
  predicate PlainNames(env: Env) {
    var keys := {"type", "size", "unsigned", "library"};
    env.platform !in keys && (env.alternate.Some? ==> env.alternate.value !in keys)
  }

  /** One more line of an offset. */
  lemma OffsetLine(c: Config, key: string, value: string, env: Env)
    requires PlainNames(env) && c.state.Offset? && c.ignore == 0
    ensures var e, r := c.entry, ReadKey(c, key, value, env).entry;
            && ReadKey(c, key, value, env) == c.(entry := r) && r.name == e.name
            && r.primary == (e.primary || (key == env.platform && env.alternate.Some?))
            && if key == env.platform || (!e.primary && env.alternate == Some(key)) then
                 r.found && r.desc.offset == env.number(value)
               else r.found == e.found && r.desc.offset == e.desc.offset
  {
  }

  lemma {:induction false} OffsetRead(c: Config, lines: seq<(string, string)>, env: Env)
    requires PlainNames(env) && c.state.Offset? && c.ignore == 0 && !c.entry.primary && !c.entry.found
    ensures var e, v := ReadLines(c, lines, env).entry, Chosen(lines, env);
            && ReadLines(c, lines, env) == c.(entry := e) && e.name == c.entry.name
            && e.primary == (LastOf(lines, env.platform).Some? && env.alternate.Some?)
            && e.found == v.Some? && (v.Some? ==> e.desc.offset == env.number(v.value))
  {
    hide ReadKey, PlainNames;
    if lines != [] {
      var front, last := lines[..|lines| - 1], lines[|lines| - 1];
      OffsetRead(c, front, env);
      OffsetLine(ReadLines(c, front, env), last.0, last.1, env);
    }
  }

  /** What an offset's section stores, whatever order its lines have: the number for this platform, under
      the offset's name, for the class if there is one; nothing without a line for this platform. */
  lemma OffsetForPlatform(c: Config, name: string, body: seq<Node>, env: Env)
    requires PlainNames(env) && c.state.Offsets? && c.ignore == 0 && c.custom == 0
    ensures var c', v, key := Run(c, EventsOf(Section(name, body)), env), Chosen(Lines(body), env), Clip(name, 64);
            && c'.state.Offsets? && c'.ignore == 0 && c'.custom == 0
            && match v
               case None => c'.store == c.store
               case Some(value) =>
                 if c.cls != "" then
                   (c.cls, key) in c'.store.classOffsets
                     && c'.store.classOffsets[(c.cls, key)].offset == env.number(value)
                 else key in c'.store.offsets && c'.store.offsets[key].offset == env.number(value)
  {
    hide ReadLines, Lines, Chosen, Run, CloseSection;
    var c1 := OpenSection(c, name, env);
    RunSection(c, name, body, env);
    LeafReads(c1, body, env);
    OffsetRead(c1, Lines(body), env);
    OffsetCloses(ReadLines(c1, Lines(body), env), env);
  }

  lemma OffsetCloses(c: Config, env: Env)
    requires c.state.Offset? && c.ignore == 0 && c.custom == 0
    ensures CloseSection(c, env) == c.(state := Offsets, store := StoreOffset(c))
  {
  }

  function Clipped(v: Option<string>, size: nat): string
    requires size > 0
  {
    if v.Some? then Clip(v.value, size) else ""
  }

  lemma SigLine(c: Config, key: string, value: string, env: Env)
    requires PlainNames(env) && c.state.Sig? && c.ignore == 0
    ensures var e, r := c.entry, ReadKey(c, key, value, env).entry;
            && ReadKey(c, key, value, env) == c.(entry := r) && r.name == e.name
            && r.primary == (e.primary || (key == env.platform && env.alternate.Some?))
            && r.library == (if key == "library" then Clip(value, 64) else e.library)
            && r.signature == if key == env.platform || (!e.primary && env.alternate == Some(key)) then
                 Clip(value, 1024) else e.signature
  {
  }

  lemma {:induction false} SigRead(c: Config, lines: seq<(string, string)>, env: Env)
    requires PlainNames(env) && c.state.Sig? && c.ignore == 0
    requires !c.entry.primary && c.entry.signature == c.entry.library == ""
    ensures var e := ReadLines(c, lines, env).entry;
            && ReadLines(c, lines, env) == c.(entry := e) && e.name == c.entry.name
            && e.primary == (LastOf(lines, env.platform).Some? && env.alternate.Some?)
            && e.signature == Clipped(Chosen(lines, env), 1024) && e.library == Clipped(LastOf(lines, "library"), 64)
  {
    hide ReadKey, PlainNames, Clip;
    if lines != [] {
      var front, last := lines[..|lines| - 1], lines[|lines| - 1];
      SigRead(c, front, env);
      SigLine(ReadLines(c, front, env), last.0, last.1, env);
    }
  }

  /** The same for a signature, which is looked up in the library that the last line names. */
  lemma SigForPlatform(c: Config, name: string, body: seq<Node>, env: Env)
    requires PlainNames(env) && c.state.Signatures? && c.ignore == 0 && c.custom == 0
    ensures var c' := Run(c, EventsOf(Section(name, body)), env);
            var library, signature :=
              Clipped(LastOf(Lines(body), "library"), 64), Clipped(Chosen(Lines(body), env), 1024);
            var address := env.resolve(if library == "" then "server" else library, signature);
            && c'.state.Signatures? && c'.ignore == 0 && c'.custom == 0
            && c'.store == if signature == "" || address.None? then c.store
                           else c.store.(sigs := c.store.sigs[Clip(name, 64) := address.value])
  {
    hide ReadLines, Lines, Chosen, Run, CloseSection;
    var c1 := OpenSection(c, name, env);
    RunSection(c, name, body, env);
    LeafReads(c1, body, env);
    SigRead(c1, Lines(body), env);
    SigCloses(ReadLines(c1, Lines(body), env), env);
  }

  lemma SigCloses(c: Config, env: Env)
    requires c.state.Sig? && c.ignore == 0 && c.custom == 0
    ensures CloseSection(c, env) == c.(state := Signatures, store := StoreSig(c, env))
  {
  }

  // ---------- Tidy documents ----------

  predicate CheckOrCustom(name: string, env: Env) {
    name == "#supported" || name == "CRC" || name in env.handlers
  }

  /** No section of a class is a check or custom section. */
  predicate TidyClass(body: seq<Node>, env: Env) {
    forall i :: 0 <= i < |body| && body[i].Section? ==> !CheckOrCustom(body[i].name, env)
  }

  predicate TidyClasses(body: seq<Node>, env: Env) {
    forall i :: 0 <= i < |body| && body[i].Section? ==> body[i].name != "" && TidyClass(body[i].body, env)
  }

  predicate TidyGame(body: seq<Node>, env: Env) {
    forall i :: 0 <= i < |body| && body[i].Section? && body[i].name == "Classes" ==> TidyClasses(body[i].body, env)
  }

  predicate TidyGames(body: seq<Node>, env: Env) {
    forall i :: 0 <= i < |body| && body[i].Section? ==> TidyGame(body[i].body, env)
  }

  /** Every class has a name, and check and custom sections stand directly in a game. */
  predicate Tidy(document: seq<Node>, env: Env) {
    forall i :: 0 <= i < |document| && document[i].Section? && document[i].name == "Games" ==>
        TidyGames(document[i].body, env)
  }

  /** States in which nothing can go wrong any more, whatever sections come. */
  predicate Safe(c: Config) {
    c.ignore > 0 || (!c.state.Outside? && !c.state.Games? && !c.state.GameDefs? && !c.state.Classes? && !c.state.Class?
                     && !(c.matched && (c.state.Supported? || c.state.Crc? || c.state.Custom?)))
  }

  lemma SafeOpens(c: Config, name: string, env: Env)
    requires Placed(c) && Safe(c)
    ensures !Loses(c, NewSection(name)) && Placed(OpenSection(c, name, env)) && Safe(OpenSection(c, name, env))
  {
    OpenTracks(c, name, env);
  }

  /** Where a section can end well. */
  predicate Closes(c: Config) {
    c.ignore > 0 || !(c.matched && (c.state.Supported? || c.state.Crc? || c.state.Custom?))
  }

  lemma SafeStays(c: Config, c': Config)
    requires Back(c, c')
    ensures Safe(c) ==> Safe(c') && Closes(c)
    ensures Closes(c) ==> !Loses(c', LeavingSection)
  {
  }

  lemma SectionKeeps(c: Config, name: string, body: seq<Node>, env: Env)
    requires Placed(c) && !Loses(c, NewSection(name))
    requires KeepPlace(OpenSection(c, name, env), body, env) && Closes(OpenSection(c, name, env))
    ensures KeepsPlace(c, Section(name, body), env)
  {
    var c1 := OpenSection(c, name, env);
    OpenTracks(c, name, env);
    SectionsReturn(c1, body, env);
    SafeStays(c1, Run(c1, Events(body), env));
  }

  lemma {:induction false} SafeKeeps(c: Config, nodes: seq<Node>, env: Env)
    requires Placed(c) && Safe(c)
    ensures KeepPlace(c, nodes, env)
    decreases nodes
  {
    if nodes != [] {
      var c1 := Run(c, EventsOf(nodes[0]), env);
      if nodes[0].Section? {
        SafeSectionKeeps(c, nodes[0], env);
      }
      SectionReturns(c, nodes[0], env);
      BackPlaced(c, c1);
      SafeStays(c, c1);
      SafeKeeps(c1, nodes[1..], env);
    }
  }

  lemma {:induction false} SafeSectionKeeps(c: Config, node: Node, env: Env)
    requires Placed(c) && Safe(c) && node.Section?
    ensures KeepsPlace(c, node, env)
    decreases node
  {
    SafeOpens(c, node.name, env);
    SafeKeeps(OpenSection(c, node.name, env), node.body, env);
    SafeStays(OpenSection(c, node.name, env), OpenSection(c, node.name, env));
    SectionKeeps(c, node.name, node.body, env);
  }

  lemma {:induction false} ClassKeeps(c: Config, body: seq<Node>, env: Env)
    requires Placed(c) && c.state.Class? && c.cls != "" && c.ignore == 0 && TidyClass(body, env)
    ensures KeepPlace(c, body, env)
    decreases |body|
  {
    if body != [] {
      var c1 := Run(c, EventsOf(body[0]), env);
      if body[0].Section? {
        OpenTracks(c, body[0].name, env);
        SafeKeeps(OpenSection(c, body[0].name, env), body[0].body, env);
        SectionKeeps(c, body[0].name, body[0].body, env);
      }
      SectionReturns(c, body[0], env);
      BackPlaced(c, c1);
      ClassKeeps(c1, body[1..], env);
    }
  }

  lemma {:induction false} ClassesKeeps(c: Config, body: seq<Node>, env: Env)
    requires Placed(c) && c.state.Classes? && c.ignore == 0 && TidyClasses(body, env)
    ensures KeepPlace(c, body, env)
    decreases |body|
  {
    if body != [] {
      var c1 := Run(c, EventsOf(body[0]), env);
      if body[0].Section? {
        OpenTracks(c, body[0].name, env);
        ClassKeeps(OpenSection(c, body[0].name, env), body[0].body, env);
        SectionKeeps(c, body[0].name, body[0].body, env);
      }
      SectionReturns(c, body[0], env);
      BackPlaced(c, c1);
      ClassesKeeps(c1, body[1..], env);
    }
  }

  lemma GameSectionKeeps(c: Config, name: string, body: seq<Node>, env: Env)
    requires Placed(c) && c.state.GameDefs? && c.ignore == 0 && (name == "Classes" ==> TidyClasses(body, env))
    ensures KeepsPlace(c, Section(name, body), env)
  {
    OpenTracks(c, name, env);
    if name == "Classes" {
      ClassesKeeps(OpenSection(c, name, env), body, env);
    } else {
      SafeKeeps(OpenSection(c, name, env), body, env);
    }
    SectionKeeps(c, name, body, env);
  }

  lemma {:induction false} GameKeeps(c: Config, body: seq<Node>, env: Env)
    requires Placed(c) && c.state.GameDefs? && c.ignore == 0 && TidyGame(body, env)
    ensures KeepPlace(c, body, env)
    decreases |body|
  {
    if body != [] {
      var c1 := Run(c, EventsOf(body[0]), env);
      if body[0].Section? {
        GameSectionKeeps(c, body[0].name, body[0].body, env);
      }
      SectionReturns(c, body[0], env);
      BackPlaced(c, c1);
      if c1.ignore > 0 {
        SafeKeeps(c1, body[1..], env);
      } else {
        GameKeeps(c1, body[1..], env);
      }
    }
  }

  lemma {:induction false} GamesKeeps(c: Config, body: seq<Node>, env: Env)
    requires Placed(c) && c.state.Games? && c.ignore == 0 && TidyGames(body, env)
    ensures KeepPlace(c, body, env)
    decreases |body|
  {
    if body != [] {
      var c1 := Run(c, EventsOf(body[0]), env);
      if body[0].Section? {
        OpenTracks(c, body[0].name, env);
        if GameMatches(body[0].name, env) {
          GameKeeps(OpenSection(c, body[0].name, env), body[0].body, env);
        } else {
          SafeKeeps(OpenSection(c, body[0].name, env), body[0].body, env);
        }
        SectionKeeps(c, body[0].name, body[0].body, env);
      }
      SectionReturns(c, body[0], env);
      BackPlaced(c, c1);
      GamesKeeps(c1, body[1..], env);
    }
  }

  /** On a tidy document the reader never loses its place, whatever game it runs in, and ends outside of
      everything. */
  lemma {:induction false} TidyKeeps(c: Config, document: seq<Node>, env: Env)
    requires Fresh(c) && Tidy(document, env)
    ensures KeepPlace(c, document, env) && Fresh(Run(c, Events(document), env))
    decreases |document|
  {
    if document != [] {
      var node := document[0];
      if node.Section? {
        OpenTracks(c, node.name, env);
        if node.name == "Games" {
          GamesKeeps(OpenSection(c, node.name, env), node.body, env);
        } else {
          SafeKeeps(OpenSection(c, node.name, env), node.body, env);
        }
        SectionKeeps(c, node.name, node.body, env);
      }
      SectionReturns(c, node, env);
      TidyKeeps(Run(c, EventsOf(node), env), document[1..], env);
      RunAppend(c, EventsOf(node), Events(document[1..]), env);
    }
  }

  // ---------- Documents and their events ----------

  lemma NeverLosesBoth(c: Config, a: seq<Event>, b: seq<Event>, env: Env)
    ensures NeverLoses(c, a + b, env) <==> NeverLoses(c, a, env) && NeverLoses(Run(c, a, env), b, env)
  {
    hide Run, Loses;
    var all := a + b;
    forall k {:trigger a[k]} {:trigger all[k]} | 0 <= k < |a| ensures all[k] == a[k] && all[..k] == a[..k] {
    }
    forall k {:trigger b[k]} | 0 <= k < |b|
      ensures all[|a| + k] == b[k] && Run(c, all[..|a| + k], env) == Run(Run(c, a, env), b[..k], env)
    {
      assert all[..|a| + k] == a + b[..k];
      RunAppend(c, a, b[..k], env);
    }
    if NeverLoses(c, a, env) && NeverLoses(Run(c, a, env), b, env) {
      forall k {:trigger all[k]} | 0 <= k < |all| ensures !Loses(Run(c, all[..k], env), all[k]) {
        if k >= |a| {
          assert all[k] == b[k - |a|];
        }
      }
    }
    if NeverLoses(c, all, env) {
      forall k {:trigger a[k]} | 0 <= k < |a| ensures !Loses(Run(c, a[..k], env), a[k]) {
        assert all[k] == a[k];
      }
      forall k {:trigger b[k]} | 0 <= k < |b| ensures !Loses(Run(Run(c, a, env), b[..k], env), b[k]) {
        assert all[|a| + k] == b[k];
      }
    }
  }

  lemma NeverLosesOne(c: Config, e: Event, env: Env)
    ensures NeverLoses(c, [e], env) <==> !Loses(c, e)
    ensures NeverLoses(c, [], env)
  {
    RunNone(c, env);
    assert [e][..0] == [] && [e][0] == e;
  }

  /** The place is kept in a document exactly if it is lost at none of its events. */
  lemma {:induction false} KeepsAtEvents(c: Config, nodes: seq<Node>, env: Env)
    ensures KeepPlace(c, nodes, env) <==> NeverLoses(c, Events(nodes), env)
    decreases nodes
  {
    hide NeverLoses, Run, KeepsPlace;
    if nodes == [] {
      NeverLosesOne(c, LeavingSection, env);
    } else {
      KeepsAtNode(c, nodes[0], env);
      KeepsAtEvents(Run(c, EventsOf(nodes[0]), env), nodes[1..], env);
      NeverLosesBoth(c, EventsOf(nodes[0]), Events(nodes[1..]), env);
    }
  }

  lemma {:induction false} KeepsAtNode(c: Config, node: Node, env: Env)
    ensures KeepsPlace(c, node, env) <==> NeverLoses(c, EventsOf(node), env)
    decreases node
  {
    hide NeverLoses, Run, KeepPlace, OpenSection, Loses;
    match node
    case Key(k, v) =>
      NeverLosesOne(c, KeyValue(k, v), env);
      KeyLosesNothing(c, k, v);
    case Section(name, body) =>
      var begin, inner, end := [NewSection(name)], Events(body), [LeavingSection];
      RunOne(c, NewSection(name), env);
      NeverLosesOne(c, NewSection(name), env);
      KeepsAtEvents(Run(c, begin, env), body, env);
      NeverLosesBoth(c, begin, inner, env);
      RunAppend(c, begin, inner, env);
      NeverLosesOne(Run(c, begin + inner, env), LeavingSection, env);
      NeverLosesBoth(c, begin + inner, end, env);
  }

  lemma KeyLosesNothing(c: Config, key: string, value: string)
    ensures !Loses(c, KeyValue(key, value))
  {
  }

  /** On the text of a tidy document the depth is tracked at every event, and the reader ends outside of
      everything, in every game. */
  lemma TidyTextTracks(c: Config, document: seq<Node>, env: Env)
    requires Fresh(c) && Tidy(document, env) && Printable(document, false)
    ensures Parse(Print(document), Smc.Start) == (Events(document), Okay)
    ensures TracksAll(c, Events(document), env) && Fresh(Run(c, Events(document), env))
  {
    hide NeverLoses, KeepPlace, TracksAll, Tidy, Printable, Print, Events, Run;
    PrintThenParse(document);
    TidyKeeps(c, document, env);
    KeepsAtEvents(c, document, env);
    ParseTracks(c, Print(document), Events(document), Okay, env);
  }
}
