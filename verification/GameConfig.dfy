/**
 The game-config reader (amxmodx/CGameConfigs.cpp): a listener of the section parser that keeps its
 place with a parse state and two counters, and stores what belongs to the running game.

 What the reader asks of its surroundings (the game, the engine, platform names, binaries, numbers
 in texts, symbol lookup, custom handlers) is an environment. Log texts are not modelled.
 */
module GameConfig {
  import opened Basics
  import opened Smc

  datatype PState =
    | Outside | Games | GameDefs | Classes | Class | Offsets | Offset | Keys | Supported | Signatures | Sig
    | Crc | CrcBinary | Custom | Addresses | Address | Read

  /** Of a binary: whether its checksum is known, and what it is. */
  datatype Binary = Unknown | NoCrc | WithCrc(crc: int)

  /** `alternate` is the platform name accepted in place of a missing one, if there is such a name. */
  datatype Env = Env(game: string, engine: string, platform: string, alternate: Option<string>,
                     handlers: set<string>, fieldTypes: set<string>, binary: string -> Binary, number: string -> int,
                     hex: string -> int, resolve: (string, string) -> Option<int>)

  datatype Desc = Desc(fieldType: string, size: int, isUnsigned: bool, offset: int)

  /** The flags of #supported and CRC blocks; `reading` says that the game section applies. */
  datatype Checks = Checks(reading: bool, hadGame: bool, matchedGame: bool, hadEngine: bool, matchedEngine: bool,
                           binValid: bool, binCrc: int)

  /** The entry that is being read. */
  datatype Entry = Entry(name: string, desc: Desc, found: bool, primary: bool, library: string, signature: string,
                         address: string, addressSig: string, readOffsets: seq<int>)

  datatype Store = Store(keys: map<string, string>, offsets: map<string, Desc>, classOffsets: map<(string, string),
                         Desc>,
                         sigs: map<string, int>, addresses: map<string, (string, seq<int>)>)

  /** The reader. `ignore` counts sections that are skipped, `custom` those left to a custom handler. */
  datatype Config = Config(state: PState, ignore: nat, custom: nat, cls: string, matched: bool, game: string,
                           checks: Checks, entry: Entry, store: Store)

  const NoDesc := Desc("", 0, false, 0)

  predicate GameMatches(name: string, env: Env) {
    name == "*" || name == "#default" || name == env.game
  }

  /** A section inside a game section or a class. */
  function OpenInGame(c: Config, name: string, env: Env): Config {
    if name == "Classes" then
      if c.cls == "" then c.(state := Classes, matched := true) else c.(ignore := c.ignore + 1)
    else if name == "Offsets" then c.(state := Offsets)
    else if name == "Keys" then c.(state := Keys)
    else if name == "#supported" && c.game == "#default" then
      c.(state := Supported, checks := c.checks.(reading := false, hadGame := false, matchedGame := false,
                                                 hadEngine := false, matchedEngine := false))
    else if name == "Signatures" then c.(state := Signatures)
    else if name == "CRC" then c.(state := Crc, checks := c.checks.(reading := false, binValid := false))
    else if name == "Addresses" then c.(state := Addresses)
    else if name in env.handlers then c.(state := Custom, custom := 0)
    else c.(ignore := c.ignore + 1)
  }

  /** ReadSMC_NewSection. */
  function OpenSection(c: Config, name: string, env: Env): Config {
    if c.ignore > 0 then c.(ignore := c.ignore + 1)
    else match c.state
      case Outside => if name == "Games" then c.(state := Games) else c.(ignore := 1)
      case Games =>
        if GameMatches(name, env) then
          c.(state := GameDefs, cls := "", matched := false, game := Clip(name, 256),
             checks := c.checks.(reading := true))
        else c.(ignore := 1)
      case GameDefs => OpenInGame(c, name, env)
      case Class => OpenInGame(c, name, env)
      case Classes => c.(state := Class, cls := Clip(name, 64))
      case Offsets => c.(state := Offset,
                         entry := c.entry.(name := Clip(name, 64), desc := NoDesc, primary := false, found := false))
      case Signatures => c.(state := Sig,
                            entry := c.entry.(name := Clip(name, 64), library := "", signature := "", primary := false))
      case Crc =>
        (match env.binary(name)
         case WithCrc(crc) => c.(state := CrcBinary, checks := c.checks.(binValid := true, binCrc := crc))
         case _ => c.(ignore := 1, checks := c.checks.(binValid := false)))
      case Custom => c.(custom := c.custom + 1)
      case Addresses => c.(state := Address,
                           entry := c.entry.(address := Clip(name, 64), addressSig := "", readOffsets := []))
      case Address => if name == env.platform then c.(state := Read) else c.(ignore := 1)
      case _ => c.(ignore := 1)
  }

  function PlatformFits(e: Entry, key: string, env: Env): bool {
    key == env.platform || (!e.primary && env.alternate == Some(key))
  }

  /** Finding the platform's own name rules out the alternate one. */
  function Fitted(e: Entry, key: string, env: Env): Entry {
    if key == env.platform && env.alternate.Some? then e.(primary := true) else e
  }

  function KeyInOffset(e: Entry, key: string, value: string, env: Env): Entry {
    if key == "type" then e.(desc := e.desc.(fieldType := if value in env.fieldTypes then value else ""))
    else if key == "size" then e.(desc := e.desc.(size := if env.number(value) > 0 then env.number(value) else 0))
    else if key == "unsigned" then e.(desc := e.desc.(isUnsigned := env.number(value) != 0))
    else if PlatformFits(e, key, env) then
        Fitted(e, key, env).(found := true, desc := e.desc.(offset := env.number(value)))
    else e
  }

  function KeyInSig(e: Entry, key: string, value: string, env: Env): Entry {
    if PlatformFits(e, key, env) then Fitted(e, key, env).(signature := Clip(value, 1024))
    else if key == "library" then e.(library := Clip(value, 64))
    else e
  }

  function KeyInAddress(e: Entry, key: string, value: string, env: Env): Entry {
    if key == "read" then (if |e.readOffsets| < 8 then e.(readOffsets := e.readOffsets + [env.number(value)]) else e)
    else if key == "signature" then e.(addressSig := Clip(value, 64))
    else e
  }

  /** A game or engine line of a #supported block. */
  function KeyInSupported(k: Checks, key: string, value: string, env: Env): Checks {
    if key == "game" then
      var k1 := k.(hadGame := true, matchedGame := k.matchedGame || value == env.game);
      if k1.matchedGame && (!k1.hadEngine || k1.matchedEngine) then k1.(reading := true) else k1
    else if key == "engine" then
      var k1 := k.(hadEngine := true, matchedEngine := k.matchedEngine || value == env.engine);
      if k1.matchedEngine && (!k1.hadGame || k1.matchedGame) then k1.(reading := true) else k1
    else k
  }

  /** ReadSMC_KeyValue. */
  function ReadKey(c: Config, key: string, value: string, env: Env): Config {
    if c.ignore > 0 then c
    else match c.state
      case Offset => c.(entry := KeyInOffset(c.entry, key, value, env))
      case Keys => c.(store := c.store.(keys := c.store.keys[key := value]))
      case Supported => c.(checks := KeyInSupported(c.checks, key, value, env))
      case Sig => c.(entry := KeyInSig(c.entry, key, value, env))
      case CrcBinary =>
        if key == env.platform && c.checks.binValid && !c.checks.reading && env.hex(value) == c.checks.binCrc
        then c.(checks := c.checks.(reading := true)) else c
      case Address => c.(entry := KeyInAddress(c.entry, key, value, env))
      case Read => c.(entry := KeyInAddress(c.entry, key, value, env))
      case _ => c
  }

  function StoreOffset(c: Config): Store {
    var s, e := c.store, c.entry;
    if !e.found then s
    else if c.cls != "" then s.(classOffsets := s.classOffsets[(c.cls, e.name) := e.desc])
    else s.(offsets := s.offsets[e.name := e.desc])
  }

  function StoreSig(c: Config, env: Env): Store {
    var s, e := c.store, c.entry;
    var library := if e.library == "" then "server" else e.library;
    if e.signature == "" then s
    else match env.resolve(library, e.signature)
         case Some(address) => s.(sigs := s.sigs[e.name := address])
         case None => s
  }

  function StoreAddress(c: Config): Store {
    var s, e := c.store, c.entry;
    if e.address == "" || e.addressSig == "" then s
    else s.(addresses := s.addresses[e.address := (e.addressSig, e.readOffsets)])
  }

  /** Where Keys, Offsets, Signatures and Addresses sections return to. */
  function Home(c: Config): PState {
    if c.matched then Class else GameDefs
  }

  /** ReadSMC_LeavingSection. */
  function CloseSection(c: Config, env: Env): Config {
    if c.ignore > 0 then c.(ignore := c.ignore - 1)
    else if c.custom > 0 then c.(custom := c.custom - 1)
    else match c.state
      case Outside => c
      case Games => c.(state := Outside)
      case GameDefs => c.(state := Games)
      case Classes => c.(state := GameDefs, matched := false)
      case Class => c.(state := Classes, cls := "")
      case Custom => c.(state := GameDefs)
      case Keys => c.(state := Home(c))
      case Offsets => c.(state := Home(c))
      case Offset => c.(state := Offsets, store := StoreOffset(c))
      case Supported => if c.checks.reading then c.(state := GameDefs) else c.(state := Games, ignore := 1)
      case Crc => if c.checks.reading then c.(state := GameDefs) else c.(state := Games, ignore := 1)
      case CrcBinary => c.(state := Crc)
      case Signatures => c.(state := Home(c))
      case Sig => c.(state := Signatures, store := StoreSig(c, env))
      case Addresses => c.(state := Home(c))
      case Address => c.(state := Addresses, store := StoreAddress(c))
      case Read => c.(state := Address)
  }

  function Handle(c: Config, e: Event, env: Env): Config {
    match e
    case NewSection(name) => OpenSection(c, name, env)
    case KeyValue(key, value) => ReadKey(c, key, value, env)
    case LeavingSection => CloseSection(c, env)
  }

  function Run(c: Config, events: seq<Event>, env: Env): Config {
    if events == [] then c else Handle(Run(c, events[..|events| - 1], env), events[|events| - 1], env)
  }

  // ---------- Depth ----------

  /** The depth that a state stands for. */
  function StateDepth(state: PState, matched: bool): nat {
    var home := if matched then 4 else 2;
    match state
    case Outside => 0
    case Games => 1
    case GameDefs => 2
    case Classes => 3
    case Class => 4
    case Offset => home + 2
    case Sig => home + 2
    case CrcBinary => home + 2
    case Address => home + 2
    case Read => home + 3
    case _ => home + 1
  }

  function TrackedDepth(c: Config): nat {
    StateDepth(c.state, c.matched) + c.ignore + c.custom
  }

  /** What holds while the reader knows where it is. */
  predicate Placed(c: Config) {
    && (c.state.Classes? || c.state.Class? ==> c.matched)
    && (c.state.GameDefs? ==> !c.matched)
    && (c.state.Classes? || c.state.GameDefs? ==> c.cls == "")
    && (c.custom > 0 ==> c.state.Custom? && c.ignore == 0)
    && (!c.matched && !c.state.Outside? && !c.state.Games? ==> c.cls == "")
  }

  /** The event at which the reader loses its place: the end of a #supported, CRC or custom section
      inside a class, and a Classes section inside a class without a name. */
  predicate Loses(c: Config, e: Event) {
    && c.ignore == 0
    && match e
       case LeavingSection => c.custom == 0 && c.matched && (c.state.Supported? || c.state.Crc? || c.state.Custom?)
       case NewSection(name) => c.state.Class? && c.cls == "" && name == "Classes"
       case KeyValue(_, _) => false
  }

  function Change(e: Event): int {
    match e
    case NewSection(_) => 1
    case LeavingSection => -1
    case KeyValue(_, _) => 0
  }

  lemma OpenInGameTracks(c: Config, name: string, env: Env)
    requires Placed(c) && c.ignore == 0 && (c.state.GameDefs? || c.state.Class?)
    ensures TrackedDepth(OpenInGame(c, name, env)) == TrackedDepth(c) + 1 <==> !Loses(c, NewSection(name))
    ensures !Loses(c, NewSection(name)) ==> Placed(OpenInGame(c, name, env))
  {
  }

  lemma OpenTracks(c: Config, name: string, env: Env)
    requires Placed(c)
    ensures TrackedDepth(OpenSection(c, name, env)) == TrackedDepth(c) + 1 <==> !Loses(c, NewSection(name))
    ensures !Loses(c, NewSection(name)) ==> Placed(OpenSection(c, name, env))
  {
    hide OpenInGame;
    if c.ignore == 0 && (c.state.GameDefs? || c.state.Class?) {
      OpenInGameTracks(c, name, env);
    }
  }

  lemma CloseTracks(c: Config, env: Env)
    requires Placed(c) && TrackedDepth(c) > 0
    ensures TrackedDepth(CloseSection(c, env)) == TrackedDepth(c) - 1 <==> !Loses(c, LeavingSection)
    ensures !Loses(c, LeavingSection) ==> Placed(CloseSection(c, env))
  {
  }

  /** One event keeps the depth exactly unless the reader loses its place at it. */
  lemma StepTracks(c: Config, e: Event, env: Env)
    requires Placed(c) && TrackedDepth(c) + Change(e) >= 0
    ensures TrackedDepth(Handle(c, e, env)) == TrackedDepth(c) + Change(e) <==> !Loses(c, e)
    ensures !Loses(c, e) ==> Placed(Handle(c, e, env))
  {
    match e
    case NewSection(name) => OpenTracks(c, name, env);
    case LeavingSection => CloseTracks(c, env);
    case KeyValue(_, _) =>
  }

  lemma RunNext(c: Config, events: seq<Event>, k: nat, env: Env)
    requires k < |events|
    ensures Run(c, events[..k + 1], env) == Handle(Run(c, events[..k], env), events[k], env)
    ensures Depth(events[..k + 1]) == Depth(events[..k]) + Change(events[k])
  {
    assert events[..k + 1][..k] == events[..k];
  }

  /** The reader starts outside of everything. */
  predicate Fresh(c: Config) {
    c.state.Outside? && c.ignore == 0 && c.custom == 0
  }

  lemma {:induction false} TrackedSoFar(c: Config, events: seq<Event>, k: nat, env: Env)
    requires Fresh(c) && k <= |events| && forall j :: 0 <= j <= |events| ==> Depth(events[..j]) >= 0
    requires forall j {:trigger events[j]} :: 0 <= j < k ==> !Loses(Run(c, events[..j], env), events[j])
    ensures Placed(Run(c, events[..k], env)) && TrackedDepth(Run(c, events[..k], env)) == Depth(events[..k])
  {
    if k > 0 {
      TrackedSoFar(c, events, k - 1, env);
      RunNext(c, events, k - 1, env);
      StepTracks(Run(c, events[..k - 1], env), events[k - 1], env);
    }
  }

  lemma {:induction false} FirstLossShows(c: Config, events: seq<Event>, k: nat, env: Env) returns (j: nat)
    requires Fresh(c) && k < |events| && forall j :: 0 <= j <= |events| ==> Depth(events[..j]) >= 0
    requires Loses(Run(c, events[..k], env), events[k])
    ensures j <= |events| && TrackedDepth(Run(c, events[..j], env)) != Depth(events[..j])
  {
    if i: nat :| i < k && Loses(Run(c, events[..i], env), events[i]) {
      j := FirstLossShows(c, events, i, env);
    } else {
      j := k + 1;
      TrackedSoFar(c, events, k, env);
      RunNext(c, events, k, env);
      StepTracks(Run(c, events[..k], env), events[k], env);
    }
  }

  ghost predicate TracksAll(c: Config, events: seq<Event>, env: Env) {
    forall k :: 0 <= k <= |events| ==> TrackedDepth(Run(c, events[..k], env)) == Depth(events[..k])
  }

  ghost predicate NeverLoses(c: Config, events: seq<Event>, env: Env) {
    forall k {:trigger events[k]} :: 0 <= k < |events| ==> !Loses(Run(c, events[..k], env), events[k])
  }

  /** Along every sequence of events that the parser can deliver, the depth is tracked at all times if
      and only if there is no event at which the reader loses its place. */
  lemma TracksExactly(c: Config, events: seq<Event>, env: Env)
    requires Fresh(c) && Nested(events, 0)
    ensures TracksAll(c, events, env) <==> NeverLoses(c, events, env)
  {
    forall j | 0 <= j <= |events| ensures Depth(events[..j]) >= 0 {
      assert 0 + Depth(events[..j]) >= 0;
    }
    if NeverLoses(c, events, env) {
      forall k | 0 <= k <= |events| ensures TrackedDepth(Run(c, events[..k], env)) == Depth(events[..k]) {
        TrackedSoFar(c, events, k, env);
      }
    } else {
      var k: nat :| k < |events| && Loses(Run(c, events[..k], env), events[k]);
      var j := FirstLossShows(c, events, k, env);
    }
  }

  lemma EndsFresh(c: Config, events: seq<Event>, env: Env)
    requires Fresh(c) && Nested(events, 0) && Depth(events) == 0 && NeverLoses(c, events, env)
    ensures Fresh(Run(c, events, env))
  {
    hide Run, Depth, NeverLoses, Nested;
    TracksExactly(c, events, env);
    assert events[..|events|] == events;
    assert TrackedDepth(Run(c, events[..|events|], env)) == Depth(events[..|events|]);
  }

  /** For every text, a parse that ends well leaves the reader outside of everything, unless it lost its
      place on the way. */
  lemma ParseTracks(c: Config, text: string, events: seq<Event>, err: Error, env: Env)
    requires Fresh(c) && (events, err) == Parse(text, Smc.Start)
    ensures TracksAll(c, events, env) <==> NeverLoses(c, events, env)
    ensures err.Okay? && NeverLoses(c, events, env) ==> Fresh(Run(c, events, env))
  {
    ParseNests(text, Smc.Start);
    TracksExactly(c, events, env);
    if err.Okay? && NeverLoses(c, events, env) {
      EndsFresh(c, events, env);
    }
  }

  /** An example: the end of a CRC block inside a class. The reader believes that it is two levels down
      although it is four. */
  lemma CrcInClassLosesPlace(c: Config, env: Env)
    requires Fresh(c)
    ensures var events := [NewSection("Games"), NewSection("*"), NewSection("Classes"), NewSection("player"),
                           NewSection("CRC"), LeavingSection];
            Depth(events) == 4 && TrackedDepth(Run(c, events, env)) == 2
  {
    var e1 := [NewSection("Games")];
    var e2 := e1 + [NewSection("*")];
    var e3 := e2 + [NewSection("Classes")];
    var e4 := e3 + [NewSection("player")];
    var e5 := e4 + [NewSection("CRC")];
    var e6 := e5 + [LeavingSection];
    RunSnoc(c, [], NewSection("Games"), env);
    RunSnoc(c, e1, NewSection("*"), env);
    RunSnoc(c, e2, NewSection("Classes"), env);
    RunSnoc(c, e3, NewSection("player"), env);
    RunSnoc(c, e4, NewSection("CRC"), env);
    RunSnoc(c, e5, LeavingSection, env);
    assert e6 == [NewSection("Games"), NewSection("*"), NewSection("Classes"), NewSection("player"), NewSection("CRC"),
                  LeavingSection];
  }

  lemma RunSnoc(c: Config, events: seq<Event>, e: Event, env: Env)
    ensures Run(c, events + [e], env) == Handle(Run(c, events, env), e, env)
            && Depth(events + [e]) == Depth(events) + Change(e)
  {
  }

  // ---------- What is skipped ----------

  /** As long as the ignored section is not closed, nothing changes but the count. */
  lemma {:induction false} IgnoredChangesNothing(c: Config, events: seq<Event>, env: Env)
    requires c.ignore > 0 && forall k :: 0 <= k <= |events| ==> c.ignore + Depth(events[..k]) > 0
    ensures c.ignore + Depth(events) > 0 && Run(c, events, env) == c.(ignore := c.ignore + Depth(events))
  {
    assert events[..|events|] == events;
    if events != [] {
      var front := events[..|events| - 1];
      forall k | 0 <= k <= |front| ensures c.ignore + Depth(front[..k]) > 0 {
        assert front[..k] == events[..k];
      }
      IgnoredChangesNothing(c, front, env);
    }
  }

  /** After a #supported or CRC block that did not match, nothing is stored until the game section
      closes, and then the reader is back among the games. */
  lemma FailedCheckStoresNothing(c: Config, events: seq<Event>, env: Env)
    requires (c.state.Supported? || c.state.Crc?) && c.ignore == 0 && c.custom == 0 && !c.checks.reading
    requires forall k :: 0 <= k <= |events| ==> Depth(events[..k]) >= 0
    ensures Run(CloseSection(c, env), events, env).store == c.store
    ensures Depth(events) == 0 ==> CloseSection(Run(CloseSection(c, env), events, env), env) == c.(state := Games)
  {
    hide CloseSection, Run, Depth;
    var c1 := CloseSection(c, env);
    FailedCloses(c, env);
    forall k | 0 <= k <= |events| ensures c1.ignore + Depth(events[..k]) > 0 {
      assert Depth(events[..k]) >= 0;
    }
    IgnoredChangesNothing(c1, events, env);
    if Depth(events) == 0 {
      SkippedOut(c, Run(c1, events, env), env);
    }
  }

  lemma FailedCloses(c: Config, env: Env)
    requires (c.state.Supported? || c.state.Crc?) && c.ignore == 0 && c.custom == 0 && !c.checks.reading
    ensures CloseSection(c, env) == c.(state := Games, ignore := 1)
  {
  }

  lemma SkippedOut(c: Config, c2: Config, env: Env)
    requires c.ignore == 0 && c2 == c.(state := Games, ignore := 1)
    ensures CloseSection(c2, env) == c.(state := Games)
  {
  }

  // ---------- Whole sections ----------

  /** The reader is where it was, or among the games with the rest of the game section to be skipped. */
  predicate Back(c: Config, c': Config) {
    || (c'.state == c.state && c'.ignore == c.ignore && c'.custom == c.custom
        && (!c.state.Outside? && !c.state.Games? ==> c'.cls == c.cls && c'.matched == c.matched))
    || (c.state.GameDefs? && c.ignore == 0 && c.custom == 0 && c'.state.Games? && c'.ignore == 1 && c'.custom == 0)
  }

  lemma BackHere(c: Config)
    ensures Back(c, c)
  {
  }

  lemma BackAgain(a: Config, b: Config, c: Config)
    requires Back(a, b) && Back(b, c)
    ensures Back(a, c)
  {
  }

  lemma BackPlaced(c: Config, c': Config)
    requires Placed(c) && Back(c, c')
    ensures Placed(c')
  {
  }

  lemma CloseReturns(c: Config, name: string, c2: Config, env: Env)
    requires Placed(c) && !Loses(c, NewSection(name)) && Back(OpenSection(c, name, env), c2)
             && !Loses(c2, LeavingSection)
    ensures Back(c, CloseSection(c2, env))
  {
    hide OpenInGame, StoreOffset, StoreSig, StoreAddress, TrackedDepth;
    OpenTracks(c, name, env);
    if c.ignore == 0 && (c.state.GameDefs? || c.state.Class?) {
      CloseReturnsInGame(c, name, c2, env);
    }
  }

  lemma SkippedReturns(c: Config, c2: Config, env: Env)
    requires Back(c.(ignore := c.ignore + 1), c2)
    ensures Back(c, CloseSection(c2, env))
  {
  }

  lemma CloseReturnsInGame(c: Config, name: string, c2: Config, env: Env)
    requires Placed(c) && c.ignore == 0 && (c.state.GameDefs? || c.state.Class?) && !Loses(c, NewSection(name))
    requires Back(OpenInGame(c, name, env), c2) && !Loses(c2, LeavingSection)
    ensures Back(c, CloseSection(c2, env))
  {
    hide StoreOffset, StoreSig, StoreAddress;
    if OpenInGame(c, name, env) == c.(ignore := c.ignore + 1) {
      SkippedReturns(c, c2, env);
    }
  }

  lemma {:induction false} RunAppend(c: Config, a: seq<Event>, b: seq<Event>, env: Env)
    ensures Run(c, a + b, env) == Run(Run(c, a, env), b, env)
  {
    if b == [] {
      assert a + b == a;
    } else {
      var n := |b| - 1;
      assert (a + b)[..|a + b| - 1] == a + b[..n];
      RunAppend(c, a, b[..n], env);
    }
  }

  /** The reader loses its place nowhere in a node, or in a list of nodes. */
  predicate KeepsPlace(c: Config, node: Node, env: Env)
    decreases node
  {
    match node
    case Key(_, _) => true
    case Section(name, body) =>
      && !Loses(c, NewSection(name))
      && KeepPlace(OpenSection(c, name, env), body, env)
      && !Loses(Run(OpenSection(c, name, env), Events(body), env), LeavingSection)
  }

  predicate KeepPlace(c: Config, nodes: seq<Node>, env: Env)
    decreases nodes
  {
    nodes == [] || (KeepsPlace(c, nodes[0], env) && KeepPlace(Run(c, EventsOf(nodes[0]), env), nodes[1..], env))
  }

  /** A whole section brings the reader back to where it was, however deep the section is. */
  lemma {:induction false} SectionReturns(c: Config, node: Node, env: Env)
    requires Placed(c) && KeepsPlace(c, node, env)
    ensures Back(c, Run(c, EventsOf(node), env))
    decreases node
  {
    hide Run, OpenSection, CloseSection, Loses, Placed, Back, KeepPlace, Events, EventsOf;
    match node
    case Key(k, v) => KeyReturns(c, k, v, env);
    case Section(name, body) =>
      var c1 := OpenSection(c, name, env);
      OpenTracks(c, name, env);
      SectionsReturn(c1, body, env);
      CloseReturns(c, name, Run(c1, Events(body), env), env);
      RunSection(c, name, body, env);
  }

  lemma KeyReturns(c: Config, key: string, value: string, env: Env)
    ensures Back(c, Run(c, EventsOf(Key(key, value)), env))
  {
    RunSnoc(c, [], KeyValue(key, value), env);
  }

  lemma RunSection(c: Config, name: string, body: seq<Node>, env: Env)
    ensures Run(c, EventsOf(Section(name, body)), env)
         == CloseSection(Run(OpenSection(c, name, env), Events(body), env), env)
  {
    RunSnoc(c, [], NewSection(name), env);
    RunAppend(c, [NewSection(name)], Events(body), env);
    RunSnoc(c, [NewSection(name)] + Events(body), LeavingSection, env);
  }

  lemma {:induction false} SectionsReturn(c: Config, nodes: seq<Node>, env: Env)
    requires Placed(c) && KeepPlace(c, nodes, env)
    ensures Back(c, Run(c, Events(nodes), env))
    decreases nodes
  {
    hide Placed, Back, KeepsPlace;
    if nodes == [] {
      BackHere(c);
    } else {
      var c1 := Run(c, EventsOf(nodes[0]), env);
      SectionReturns(c, nodes[0], env);
      BackPlaced(c, c1);
      SectionsReturn(c1, nodes[1..], env);
      RunAppend(c, EventsOf(nodes[0]), Events(nodes[1..]), env);
      BackAgain(c, c1, Run(c1, Events(nodes[1..]), env));
    }
  }

  lemma {:induction false} NodesDepth(nodes: seq<Node>, k: nat)
    requires k <= |Events(nodes)|
    ensures Depth(Events(nodes)[..k]) >= 0 && Depth(Events(nodes)) == 0
    decreases nodes
  {
    if nodes != [] {
      var a, b := EventsOf(nodes[0]), Events(nodes[1..]);
      DepthAppend(a, b);
      NodeDepth(nodes[0], if k <= |a| then k else 0);
      NodesDepth(nodes[1..], if k > |a| then k - |a| else 0);
      if k <= |a| {
        assert (a + b)[..k] == a[..k];
      } else {
        assert (a + b)[..k] == a + b[..k - |a|];
        DepthAppend(a, b[..k - |a|]);
      }
    }
  }

  lemma {:induction false} NodeDepth(node: Node, k: nat)
    requires k <= |EventsOf(node)|
    ensures Depth(EventsOf(node)[..k]) >= 0 && Depth(EventsOf(node)) == 0
    decreases node
  {
    match node
    case Key(key, v) =>
      assert EventsOf(node)[..0] == [] && EventsOf(node)[..1] == EventsOf(node);
      assert EventsOf(node)[..1][..0] == [];
    case Section(name, body) =>
      NodesDepth(body, if 1 <= k <= 1 + |Events(body)| then k - 1 else 0);
      WrapDepth(name, Events(body), k);
  }

  lemma WrapDepth(name: string, inner: seq<Event>, k: nat)
    requires k <= |inner| + 2 && Depth(inner) == 0 && (1 <= k <= |inner| + 1 ==> Depth(inner[..k - 1]) >= 0)
    ensures Depth(([NewSection(name)] + inner + [LeavingSection])[..k]) >= 0
    ensures Depth([NewSection(name)] + inner + [LeavingSection]) == 0
  {
    var open, whole := [NewSection(name)], [NewSection(name)] + inner + [LeavingSection];
    assert open[..0] == [] && [LeavingSection][..0] == [];
    DepthAppend(open, inner);
    DepthAppend(open + inner, [LeavingSection]);
    if k == 0 {
      assert whole[..0] == [];
    } else if k <= 1 + |inner| {
      assert whole[..k] == open + inner[..k - 1];
      DepthAppend(open, inner[..k - 1]);
    } else {
      assert whole[..k] == whole;
    }
  }

  /** A section that is ignored, for instance one of another game, leaves no trace. */
  lemma IgnoredSectionLeavesNoTrace(c: Config, name: string, body: seq<Node>, env: Env)
    requires OpenSection(c, name, env) == c.(ignore := c.ignore + 1)
    ensures Run(c, EventsOf(Section(name, body)), env) == c
  {
    var c1 := OpenSection(c, name, env);
    forall k | 0 <= k <= |Events(body)| ensures c1.ignore + Depth(Events(body)[..k]) > 0 {
      NodesDepth(body, k);
    }
    IgnoredChangesNothing(c1, Events(body), env);
    NodesDepth(body, 0);
    RunSection(c, name, body, env);
  }

  // ---------- Sections with lines ----------

  lemma RunNone(c: Config, env: Env)
    ensures Run(c, [], env) == c == ReadLines(c, [], env)
  {
  }

  lemma RunOne(c: Config, e: Event, env: Env)
    ensures Run(c, [e], env) == Handle(c, e, env)
  {
    assert [e][..0] == [];
  }

  /** The lines of a section, without those of the sections inside it. */
  function Lines(body: seq<Node>): seq<(string, string)> {
    if body == [] then []
    else match body[0]
      case Key(k, v) => [(k, v)] + Lines(body[1..])
      case Section(_, _) => Lines(body[1..])
  }

  function ReadLines(c: Config, lines: seq<(string, string)>, env: Env): Config {
    if lines == [] then c
    else ReadKey(ReadLines(c, lines[..|lines| - 1], env), lines[|lines| - 1].0, lines[|lines| - 1].1, env)
  }

  lemma {:induction false} ReadFirst(c: Config, key: string, value: string, lines: seq<(string, string)>, env: Env)
    ensures ReadLines(c, [(key, value)] + lines, env) == ReadLines(ReadKey(c, key, value, env), lines, env)
  {
    var all, n := [(key, value)] + lines, |lines|;
    if n > 0 {
      ReadFirst(c, key, value, lines[..n - 1], env);
      assert all[..n] == [(key, value)] + lines[..n - 1];
    } else {
      assert all[..0] == [] && ReadLines(c, all[..0], env) == c;
    }
  }

  /** States in which a section inside is skipped. */
  predicate Leaf(c: Config) {
    c.ignore == 0 && c.custom == 0
      && (c.state.Offset? || c.state.Keys? || c.state.Supported? || c.state.Sig? || c.state.CrcBinary? || c.state.Read?)
  }

  lemma LeafStays(c: Config, key: string, value: string, name: string, env: Env)
    requires Leaf(c)
    ensures Leaf(ReadKey(c, key, value, env)) && OpenSection(c, name, env) == c.(ignore := c.ignore + 1)
  {
  }

  /** Of a section in such a state only its own lines are read. */
  lemma {:induction false} LeafReads(c: Config, body: seq<Node>, env: Env)
    requires Leaf(c)
    ensures Run(c, Events(body), env) == ReadLines(c, Lines(body), env)
    decreases |body|
  {
    hide Leaf, Run, ReadKey, OpenSection, ReadLines;
    if body == [] {
      RunNone(c, env);
    } else {
      RunAppend(c, EventsOf(body[0]), Events(body[1..]), env);
      match body[0]
      case Key(k, v) =>
        RunOne(c, KeyValue(k, v), env);
        LeafStays(c, k, v, "", env);
        LeafReads(ReadKey(c, k, v, env), body[1..], env);
        ReadFirst(c, k, v, Lines(body[1..]), env);
      case Section(name, inner) =>
        LeafStays(c, "", "", name, env);
        IgnoredSectionLeavesNoTrace(c, name, inner, env);
        LeafReads(c, body[1..], env);
    }
  }

  // ---------- #supported ----------

  /** The lines of a #supported block, one after the other. */
  function Supports(k: Checks, lines: seq<(string, string)>, env: Env): Checks {
    if lines == [] then k
    else var (key, value) := lines[|lines| - 1]; KeyInSupported(Supports(k, lines[..|lines| - 1], env), key, value, env)
  }

  predicate Named(line: (string, string), key: string, value: string) {
    line.0 == key && line.1 == value
  }

  predicate Mentions(lines: seq<(string, string)>, key: string) {
    exists i :: 0 <= i < |lines| && lines[i].0 == key
  }

  predicate Matched(lines: seq<(string, string)>, key: string, value: string) {
    exists i :: 0 <= i < |lines| && Named(lines[i], key, value)
  }

  /** A line matches before there is any line of the other kind. */
  predicate MatchedAlone(lines: seq<(string, string)>, key: string, value: string, other: string) {
    exists i :: 0 <= i < |lines| && Named(lines[i], key, value) && !Mentions(lines[..i], other)
  }

  lemma LinesMore(lines: seq<(string, string)>, n: nat, key: string, value: string, other: string)
    requires n == |lines| - 1
    ensures Mentions(lines, key) == (Mentions(lines[..n], key) || lines[n].0 == key)
    ensures Matched(lines, key, value) == (Matched(lines[..n], key, value) || Named(lines[n], key, value))
    ensures MatchedAlone(lines, key, value, other)
         == (MatchedAlone(lines[..n], key, value, other)
             || (Named(lines[n], key, value) && !Mentions(lines[..n], other)))
  {
    var front := lines[..n];
    forall i | 0 <= i < n ensures front[i] == lines[i] && front[..i] == lines[..i] {
    }
    assert Mentions(front, key) ==> Mentions(lines, key);
    assert Matched(front, key, value) ==> Matched(lines, key, value);
    if MatchedAlone(front, key, value, other) {
      var i :| 0 <= i < n && Named(front[i], key, value) && !Mentions(front[..i], other);
      assert front[..i] == lines[..i] && front[i] == lines[i];
    }
    if MatchedAlone(lines, key, value, other) {
      var i :| 0 <= i <= n && Named(lines[i], key, value) && !Mentions(lines[..i], other);
      if i < n {
        assert front[..i] == lines[..i] && front[i] == lines[i];
      }
    }
  }

  /** The block names both the game and the engine, or one of them before it has any line of the other kind. */
  predicate Applies(lines: seq<(string, string)>, env: Env) {
    || (Matched(lines, "game", env.game) && Matched(lines, "engine", env.engine))
    || MatchedAlone(lines, "game", env.game, "engine")
    || MatchedAlone(lines, "engine", env.engine, "game")
  }

  predicate Unchecked(k: Checks) {
    !k.reading && !k.hadGame && !k.matchedGame && !k.hadEngine && !k.matchedEngine
  }

  lemma {:induction false} SupportsCounts(k0: Checks, lines: seq<(string, string)>, env: Env)
    requires Unchecked(k0)
    ensures var k := Supports(k0, lines, env);
            && k.hadGame == Mentions(lines, "game") && k.hadEngine == Mentions(lines, "engine")
            && k.matchedGame == Matched(lines, "game", env.game)
               && k.matchedEngine == Matched(lines, "engine", env.engine)
            && k.reading == Applies(lines, env)
  {
    if lines != [] {
      var n := |lines| - 1;
      SupportsCounts(k0, lines[..n], env);
      LinesMore(lines, n, "game", env.game, "engine");
      LinesMore(lines, n, "engine", env.engine, "game");
      AloneMatches(lines[..n], "game", env.game, "engine");
      AloneMatches(lines[..n], "engine", env.engine, "game");
    }
  }

  lemma AloneMatches(lines: seq<(string, string)>, key: string, value: string, other: string)
    ensures MatchedAlone(lines, key, value, other) ==> Matched(lines, key, value)
  {
  }

  lemma ReadSupports(c: Config, lines: seq<(string, string)>, env: Env)
    requires c.state.Supported? && c.ignore == 0
    ensures ReadLines(c, lines, env) == c.(checks := Supports(c.checks, lines, env))
  {
    if lines != [] {
      ReadSupports(c, lines[..|lines| - 1], env);
    }
  }

  /** When a game section applies: a #supported block, with whatever sections inside, leaves the reader in
      the section if it applies, and otherwise among the games with the rest of the section to be skipped. */
  lemma SupportedExactly(c: Config, body: seq<Node>, env: Env)
    requires c.state.GameDefs? && c.game == "#default" && c.ignore == 0 && c.custom == 0
    ensures var c' := Run(c, EventsOf(Section("#supported", body)), env);
            c' == if Applies(Lines(body), env) then c.(checks := c'.checks)
              else c.(state := Games, ignore := 1, checks := c'.checks)
  {
    var c1 := OpenSection(c, "#supported", env);
    RunSection(c, "#supported", body, env);
    LeafReads(c1, body, env);
    ReadSupports(c1, Lines(body), env);
    SupportsCounts(c1.checks, Lines(body), env);
  }

  lemma TwoLines(k: string, v: string, k': string, v': string)
    ensures Lines([Key(k, v), Key(k', v')]) == [(k, v), (k', v')]
  {
    var last := [Key(k', v')];
    assert last[1..] == [] && Lines([]) == [];
    assert Lines(last) == [(k', v')];
    assert [Key(k, v), Key(k', v')][1..] == last;
  }

  lemma GameLineFirst(engine: string, env: Env)
    requires engine != env.engine
    ensures Applies([("game", env.game), ("engine", engine)], env)
    ensures !Applies([("engine", engine), ("game", env.game)], env)
  {
    var first, second := [("game", env.game), ("engine", engine)], [("engine", engine), ("game", env.game)];
    assert Named(first[0], "game", env.game) && !Mentions(first[..0], "engine");
    assert second[..1][0] == second[0];
  }

  /** The order of the lines matters: the game's own line before a line of another engine is enough, and
      behind it is not. */
  lemma OrderMatters(c: Config, engine: string, env: Env)
    requires c.state.GameDefs? && c.game == "#default" && c.ignore == 0 && c.custom == 0 && engine != env.engine
    ensures Run(c, EventsOf(Section("#supported", [Key("game", env.game), Key("engine", engine)])), env).state.GameDefs?
    ensures Run(c, EventsOf(Section("#supported", [Key("engine", engine), Key("game", env.game)])), env).state.Games?
  {
    hide Run, EventsOf, Lines, Applies;
    var first, second := [Key("game", env.game), Key("engine", engine)], [Key("engine", engine), Key("game", env.game)];
    SupportedExactly(c, first, env);
    SupportedExactly(c, second, env);
    TwoLines("game", env.game, "engine", engine);
    TwoLines("engine", engine, "game", env.game);
    GameLineFirst(engine, env);
  }

  // ---------- The reader in place ----------

  class CGameConfig {
    var parseState: PState
    var ignoreLevel: nat
    var customLevel: nat
    var cls: string
    var matchedClasses: bool
    var game: string
    var checks: Checks
    var entry: Entry
    var store: Store
    const env: Env

    function View(): Config
      reads this
    {
      Config(parseState, ignoreLevel, customLevel, cls, matchedClasses, game, checks, entry, store)
    }

    constructor (env: Env)
      ensures Fresh(View()) && this.env == env
    {
      parseState, ignoreLevel, customLevel, cls, matchedClasses, game := Outside, 0, 0, "", false, "";
      checks := Checks(true, false, false, false, false, false, 0);
      entry := Entry("", NoDesc, false, false, "", "", "", "", []);
      store := Store(map[], map[], map[], map[], map[]);
      this.env := env;
    }

    method NewSection(name: string)
      modifies this
      ensures View() == OpenSection(old(View()), name, env)
    {
      hide OpenInGame, Clip;
      if ignoreLevel > 0 {
        ignoreLevel := ignoreLevel + 1;
        return;
      }
      match parseState {
        case Outside =>
          if name == "Games" {
            parseState := Games;
          } else {
            ignoreLevel := ignoreLevel + 1;
          }
        case Games =>
          if GameMatches(name, env) {
            checks := checks.(reading := true);
            game, cls, matchedClasses := Clip(name, 256), "", false;
            parseState := GameDefs;
          } else {
            ignoreLevel := ignoreLevel + 1;
          }
        case GameDefs => NewSectionInGame(name);
        case Class => NewSectionInGame(name);
        case Classes =>
          cls := Clip(name, 64);
          parseState := Class;
        case Offsets =>
          entry := entry.(name := Clip(name, 64), desc := NoDesc, primary := false, found := false);
          parseState := Offset;
        case Signatures =>
          entry := entry.(name := Clip(name, 64), library := "", signature := "", primary := false);
          parseState := Sig;
        case Crc =>
          checks := checks.(binValid := false);
          match env.binary(name) {
            case WithCrc(crc) =>
              checks := checks.(binValid := true, binCrc := crc);
              parseState := CrcBinary;
            case _ => ignoreLevel := 1;
          }
        case Custom => customLevel := customLevel + 1;
        case Addresses =>
          entry := entry.(address := Clip(name, 64), addressSig := "", readOffsets := []);
          parseState := Address;
        case Address =>
          if name == env.platform {
            parseState := Read;
          } else {
            ignoreLevel := 1;
          }
        case _ => ignoreLevel := ignoreLevel + 1;
      }
    }

    method NewSectionInGame(name: string)
      modifies this
      ensures View() == OpenInGame(old(View()), name, env)
    {
      if name == "Classes" {
        if cls == "" {
          parseState := Classes;
          matchedClasses := true;
        } else {
          ignoreLevel := ignoreLevel + 1;
        }
      } else if name == "Offsets" {
        parseState := Offsets;
      } else if name == "Keys" {
        parseState := Keys;
      } else if name == "#supported" && game == "#default" {
        parseState := Supported;
        checks := checks.(reading := false, hadGame := false, matchedGame := false, hadEngine := false,
                          matchedEngine := false);
      } else if name == "Signatures" {
        parseState := Signatures;
      } else if name == "CRC" {
        parseState := Crc;
        checks := checks.(reading := false, binValid := false);
      } else if name == "Addresses" {
        parseState := Addresses;
      } else if name in env.handlers {
        customLevel := 0;
        parseState := Custom;
      } else {
        ignoreLevel := ignoreLevel + 1;
      }
    }

    method KeyValue(key: string, value: string)
      modifies this`entry, this`checks, this`store
      ensures View() == ReadKey(old(View()), key, value, env)
    {
      if ignoreLevel > 0 {
        return;
      }
      match parseState {
        case Offset => entry := KeyInOffset(entry, key, value, env);
        case Keys => store := store.(keys := store.keys[key := value]);
        case Supported => checks := KeyInSupported(checks, key, value, env);
        case Sig => entry := KeyInSig(entry, key, value, env);
        case CrcBinary =>
          if key == env.platform && checks.binValid && !checks.reading && env.hex(value) == checks.binCrc {
            checks := checks.(reading := true);
          }
        case Address => entry := KeyInAddress(entry, key, value, env);
        case Read => entry := KeyInAddress(entry, key, value, env);
        case _ =>
      }
    }

    method LeavingSection()
      modifies this
      ensures View() == CloseSection(old(View()), env)
    {
      if ignoreLevel > 0 {
        ignoreLevel := ignoreLevel - 1;
        return;
      }
      if customLevel > 0 {
        customLevel := customLevel - 1;
        return;
      }
      match parseState {
        case Outside =>
        case Games => parseState := Outside;
        case GameDefs => parseState := Games;
        case Classes =>
          matchedClasses := false;
          parseState := GameDefs;
        case Class =>
          parseState := Classes;
          cls := "";
        case Custom => parseState := GameDefs;
        case Keys => parseState := if matchedClasses then Class else GameDefs;
        case Offsets => parseState := if matchedClasses then Class else GameDefs;
        case Offset =>
          store := StoreOffset(View());
          parseState := Offsets;
        case Supported => LeaveCheck();
        case Crc => LeaveCheck();
        case CrcBinary => parseState := Crc;
        case Signatures => parseState := if matchedClasses then Class else GameDefs;
        case Sig =>
          store := StoreSig(View(), env);
          parseState := Signatures;
        case Addresses => parseState := if matchedClasses then Class else GameDefs;
        case Address =>
          parseState := Addresses;
          store := StoreAddress(View());
        case Read => parseState := Address;
      }
    }

    /** The end of a #supported or CRC block. */
    method LeaveCheck()
      modifies this`parseState, this`ignoreLevel
      ensures checks.reading ==> parseState == GameDefs && ignoreLevel == old(ignoreLevel)
      ensures !checks.reading ==> parseState == Games && ignoreLevel == 1
    {
      if !checks.reading {
        ignoreLevel := 1;
        parseState := Games;
      } else {
        parseState := GameDefs;
      }
    }

    method Deliver(events: seq<Event>)
      modifies this
      ensures View() == Run(old(View()), events, env)
    {
      for i := 0 to |events|
        invariant View() == Run(old(View()), events[..i], env)
      {
        assert events[..i + 1][..i] == events[..i];
        match events[i] {
          case NewSection(name) => NewSection(name);
          case KeyValue(key, value) => KeyValue(key, value);
          case LeavingSection => LeavingSection();
        }
      }
      assert events[..|events|] == events;
    }

    /** ParseStream_SMC with this reader as its listener. */
    method ParseStream(text: string) returns (err: Error)
      modifies this
      ensures var (events, e) := Parse(text, Smc.Start); err == e && View() == Run(old(View()), events, env)
    {
      var p := Smc.Start;
      ghost var told: seq<Event> := [];
      LeadsNowhere(text, p);
      while p.pos < |text|
        invariant Leads(text, Smc.Start, told, p) && View() == Run(old(View()), told, env)
        decreases |text| - p.pos
      {
        var r := StepAt(text, p);
        if !r.Go? {
          LeadsEnd(text, Smc.Start, told, p);
          return if r.Stop? then AtEnd(p) else r.err;
        }
        LeadsStep(text, p);
        LeadsOn(text, Smc.Start, told, p, r.events, r.p);
        Deliver(r.events);
        RunAppend(old(View()), told, r.events, env);
        told := told + r.events;
        p := r.p;
      }
      LeadsEnd(text, Smc.Start, told, p);
      err := AtEnd(p);
    }
  }
}
