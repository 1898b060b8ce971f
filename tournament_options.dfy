/** The tournament-options screen: the registration edit session (the player
    currently being added or modified), the menu rows that display it, and the
    transitions driven by menu choices, text-entry returns and prompts.

    Collaborators are inputs: the roster is a sequence of competitor records,
    what the tournament manager and the memory cards report arrives in a
    `Host` value, and what the screen asks the screen manager to do comes back
    as a sequence of `Effect`s. */
module TournamentOptions {
  import opened Text
  import opened Numbers
  import opened MemoryCards
  import opened RegisterMenu

  /** A roster entry. The roster owns it; the screen edits it in place
      through the current-competitor pointer. Its seed is a 32-bit `int`. */
  class Competitor {
    var displayName: string
    var highScoreName: string
    var seedIndex: int

    constructor (displayName: string, highScoreName: string, seedIndex: int)
      ensures this.displayName == displayName && this.highScoreName == highScoreName
      ensures this.seedIndex == seedIndex
    {
      this.displayName, this.highScoreName, this.seedIndex := displayName, highScoreName, seedIndex;
    }
  }

  /** The session globals: the values being edited, whether they belong to an
      already registered competitor, and that competitor's roster index (-1
      when none has been resolved). */
  datatype Session = Session(playerName: string, scoreName: string, seedIndex: u32,
                             registered: bool, playerIndex: int)

  /** What ResetPlayerData leaves, and what the program starts with. */
  const ResetSession := Session("", "", 0, false, -1)

  /** The two rows of the screen itself (TournamentOptionsLine). */
  const AddPlayerLine: int := 0
  const ModifyPlayerLine: int := 1
  const NumTournamentOptionsLines: int := 2

  /** The only entry the Modify row offers when the roster is empty. */
  const NoEntries := "-NO ENTRIES-"

  datatype InputEventType = FirstPress | SlowRepeat | FastRepeat | Release

  /** What RegisterCompetitor reports: success with the roster size it leaves, or the reason it refused. */
  datatype RegisterReply = Accepted(competitorCount: nat) | Rejected(error: string)

  /** Everything the collaborators report while one message is handled. */
  datatype Host = Host(
    competitorCount: nat,          // GetNumCompetitors() when the message arrives
    cardResults: seq<LoadResult>,  // the memory-card load result of each player number, in order
    registration: RegisterReply,   // the answer of RegisterCompetitor, if it is called
    parseSeed: string -> int)      // the integer the seed text converts to

  /** The screen messages the screen reacts to. A mini-menu return carries the
      code of the chosen row; a text-entry return carries the entered text and
      whether the entry was cancelled. */
  datatype ScreenMessage =
    | BackFromRegisterMenu(rowCode: int)
    | BackFromModifyMenu(rowCode: int)
    | DisplayNameEntered(answer: string, cancelled: bool)
    | ScoreNameEntered(answer: string, cancelled: bool)
    | SeedEntered(answer: string, cancelled: bool)
    | UsbPromptClosed
    | DeletePromptClosed
  {
    predicate IsMenuChoice(code: int) {
      (BackFromRegisterMenu? || BackFromModifyMenu?) && rowCode == code
    }

    /** The messages after which the screen shows a registration menu again. */
    predicate RedisplaysMenu() {
      DisplayNameEntered? || ScoreNameEntered? || SeedEntered? || UsbPromptClosed?
    }
  }

  /** The text field a text entry edits; its return arrives as the matching message. */
  datatype EntryField = DisplayNameField | ScoreNameField | SeedField

  datatype EntryQuestion =
    | PlayerNameQuestion(playerNumber: nat)
    | ScoreNameQuestion(forPlayer: string)
    | SeedQuestion(forPlayer: string)

  datatype Answer = AnswerYes | AnswerNo

  /** What a prompt runs when answered yes: ApplyProfile is followed by
      UsbPromptClosed, RemoveCompetitor by DeletePromptClosed. */
  datatype PromptCallback = ApplyProfile | RemoveCompetitor

  datatype PromptMessage =
    | UsbText(usb: UsbMessage)
    | ConfirmDelete(playerNumber: int, displayName: string)

  datatype Notice =
    | Registered(displayName: string, playerNumber: nat)
    | RegistrationError(reason: string)
    | UnableToDelete

  /** What the screen asks the screen manager to do. */
  datatype Effect =
    | MiniMenu(modifyMenu: bool)
    | TextEntry(field: EntryField, question: EntryQuestion, initial: string, maxLength: nat)
    | Prompt(kind: PromptType, message: PromptMessage, defaultAnswer: Answer, onYes: PromptCallback)
    | SystemMessage(notice: Notice)
    | ReloadScreen
    | BaseMenuStart
    | RosterRegister(displayName: string, scoreName: string, seed: u32)  // what RegisterCompetitor is given
    | RosterDelete(competitor: Competitor?)                               // what DeleteCompetitor is given

  /** The session after a message, as HandleScreenMessage leaves it. */
  function NextSession(s: Session, msg: ScreenMessage, host: Host): Session {
    match msg
    case BackFromRegisterMenu(code) =>
      if code == ExitAndRegister then (if host.registration.Accepted? then ResetSession else s)
      else if code == ExitAndCancel then ResetSession
      else s
    case BackFromModifyMenu(code) =>
      if code == ExitAndRegister || code == ExitAndCancel then ResetSession else s
    case DisplayNameEntered(answer, cancelled) =>
      if cancelled then s else s.(playerName := answer)
    case ScoreNameEntered(answer, cancelled) =>
      s.(scoreName := ToUpper(if cancelled then s.scoreName else answer))
    case SeedEntered(answer, cancelled) =>
      if cancelled then s else s.(seedIndex := ToUnsigned32(host.parseSeed(answer)))
    case UsbPromptClosed => s
    case DeletePromptClosed => s
  }

  /** What the screen asks for after a choice in the register menu
      (`fromModify` false) or the modify menu. `s` is the session before the
      message, `deleteName` the display name of the current competitor. */
  function ChoiceEffects(s: Session, fromModify: bool, code: int, host: Host, deleteName: string): seq<Effect> {
    if code == LoadFromUsb then
      var p := UsbPromptFor(host.cardResults);
      [Prompt(p.kind, UsbText(p.message), AnswerNo, ApplyProfile)]
    else if code == SetPlayerName then
      [TextEntry(DisplayNameField, PlayerNameQuestion(host.competitorCount + 1), s.playerName, 12)]
    else if code == SetHighscoreName then
      [TextEntry(ScoreNameField, ScoreNameQuestion(s.playerName), s.scoreName, 4)]
    else if code == SetSeedNumber then
      [TextEntry(SeedField, SeedQuestion(s.playerName), "", 3)]
    else if code == ExitAndRegister then
      if fromModify then [ReloadScreen]
      else match host.registration
           case Accepted(count) =>
             [RosterRegister(s.playerName, s.scoreName, s.seedIndex),
              SystemMessage(Registered(s.playerName, count)), ReloadScreen]
           case Rejected(error) =>
             [RosterRegister(s.playerName, s.scoreName, s.seedIndex), SystemMessage(RegistrationError(error))]
    else if code == ExitAndDelete then
      [Prompt(PromptYesNo, ConfirmDelete(s.playerIndex + 1, deleteName), AnswerNo, RemoveCompetitor)]
    else []
  }

  /** What the screen asks for after a message, as HandleScreenMessage does it. */
  function MessageEffects(s: Session, msg: ScreenMessage, host: Host, deleteName: string): seq<Effect> {
    match msg
    case BackFromRegisterMenu(code) => ChoiceEffects(s, false, code, host, deleteName)
    case BackFromModifyMenu(code) => ChoiceEffects(s, true, code, host, deleteName)
    case DisplayNameEntered(_, _) => [MiniMenu(s.registered)]
    case ScoreNameEntered(_, _) => [MiniMenu(s.registered)]
    case SeedEntered(_, _) => [MiniMenu(s.registered)]
    case UsbPromptClosed => [MiniMenu(false)]
    case DeletePromptClosed => [ReloadScreen]
  }

  /** A cancelled text entry changes nothing but the case of the score name. */
  lemma CancelledEntryKeepsValues(s: Session, msg: ScreenMessage, host: Host)
    requires (msg.DisplayNameEntered? || msg.ScoreNameEntered? || msg.SeedEntered?) && msg.cancelled
    ensures NextSession(s, msg, host) == s.(scoreName := NextSession(s, msg, host).scoreName)
    ensures NextSession(s, msg, host).scoreName == (if msg.ScoreNameEntered? then ToUpper(s.scoreName) else s.scoreName)
  {
  }

  /** After a score-name entry returns, cancelled or not, the score name holds no lower-case letter. */
  lemma ScoreNameIsUpperCase(s: Session, answer: string, cancelled: bool, host: Host)
    ensures IsUpperCase(NextSession(s, ScoreNameEntered(answer, cancelled), host).scoreName)
  {
    ToUpperIsUpperCase(if cancelled then s.scoreName else answer);
  }

  /** An accepted entry stores the text as typed for the display name, upper-cased
      for the score name, and converted to `unsigned` for the seed; nothing else changes. */
  lemma AcceptedEntryStoresAnswer(s: Session, answer: string, host: Host)
    ensures NextSession(s, DisplayNameEntered(answer, false), host) == s.(playerName := answer)
    ensures NextSession(s, ScoreNameEntered(answer, false), host) == s.(scoreName := ToUpper(answer))
    ensures NextSession(s, SeedEntered(answer, false), host)
              == s.(seedIndex := ToUnsigned32(host.parseSeed(answer)))
  {
  }

  /** Finish from the register menu resets the session exactly when the
      registration is accepted; a refused registration leaves it as it was. */
  lemma ResetOnlyOnAcceptedRegistration(s: Session, host: Host)
    ensures NextSession(s, BackFromRegisterMenu(ExitAndRegister), host)
              == if host.registration.Accepted? then ResetSession else s
  {
  }

  /** Finish from the modify menu and Cancel from either menu always reset the session. */
  lemma FinishModifyAndCancelReset(s: Session, host: Host)
    ensures NextSession(s, BackFromModifyMenu(ExitAndRegister), host) == ResetSession
    ensures NextSession(s, BackFromRegisterMenu(ExitAndCancel), host) == ResetSession
    ensures NextSession(s, BackFromModifyMenu(ExitAndCancel), host) == ResetSession
  {
  }

  /** Every other menu choice, and every prompt return, leaves the session alone. */
  lemma OtherMessagesKeepSession(s: Session, msg: ScreenMessage, host: Host)
    requires msg.UsbPromptClosed? || msg.DeletePromptClosed?
          || ((msg.BackFromRegisterMenu? || msg.BackFromModifyMenu?)
              && msg.rowCode != ExitAndRegister && msg.rowCode != ExitAndCancel)
    ensures NextSession(s, msg, host) == s
  {
  }

  /** No message changes whether the session is registered, except by resetting it. */
  lemma RegisteredChangesOnlyByReset(s: Session, msg: ScreenMessage, host: Host)
    ensures NextSession(s, msg, host).registered == s.registered
         || NextSession(s, msg, host) == ResetSession
  {
  }

  /** Every text-entry return shows a registration menu again: the modify
      menu exactly when the session belongs to a registered competitor. */
  lemma TextReturnShowsSessionMenu(s: Session, msg: ScreenMessage, host: Host, deleteName: string)
    requires msg.DisplayNameEntered? || msg.ScoreNameEntered? || msg.SeedEntered?
    ensures MessageEffects(s, msg, host, deleteName) == [MiniMenu(NextSession(s, msg, host).registered)]
    ensures NextSession(s, msg, host).registered == s.registered
  {
  }

  /** Finish from the register menu: the roster is handed the session's
      names and seed, whatever it answers; the screen is reloaded exactly
      when the registration was accepted, and the announcement names the
      player as the session held it before the reset. */
  lemma RegisterFinishOutcome(s: Session, host: Host, deleteName: string)
    ensures var effects := MessageEffects(s, BackFromRegisterMenu(ExitAndRegister), host, deleteName);
      && |effects| > 1
      && effects[0] == RosterRegister(s.playerName, s.scoreName, s.seedIndex)
      && (forall i :: 1 <= i < |effects| ==> !effects[i].RosterRegister?)
      && (effects[|effects| - 1] == ReloadScreen <==> host.registration.Accepted?)
      && (host.registration.Accepted? ==>
            effects[1] == SystemMessage(Registered(s.playerName, host.registration.competitorCount)))
  {
  }

  /** The delete prompt names the competitor by its 1-based roster position
      and asks for confirmation, defaulting to no. */
  lemma DeletePromptNamesCompetitor(s: Session, fromModify: bool, host: Host, deleteName: string)
    ensures ChoiceEffects(s, fromModify, ExitAndDelete, host, deleteName)
              == [Prompt(PromptYesNo, ConfirmDelete(s.playerIndex + 1, deleteName), AnswerNo, RemoveCompetitor)]
  {
  }

  /** Cancel, and a code no row carries, ask for nothing; Cancel resets the
      session and an unknown code leaves it as it was. */
  lemma CancelAndUnknownCodes(s: Session, fromModify: bool, code: int, host: Host, deleteName: string)
    requires code == ExitAndCancel || !(LoadFromUsb <= code <= ExitAndDelete)
    ensures ChoiceEffects(s, fromModify, code, host, deleteName) == []
    ensures var msg := if fromModify then BackFromModifyMenu(code) else BackFromRegisterMenu(code);
            NextSession(s, msg, host) == if code == ExitAndCancel then ResetSession else s
  {
  }

  /** The screen with its process-wide state: the session globals, the
      current competitor and editable profile, the shared menu row table and
      the two menus copied from it, and the choices of its own two rows. */
  class ScreenTournamentOptions {
    var playerName: string
    var scoreName: string
    var seedIndex: u32
    var registered: bool
    var playerIndex: int
    var curCompetitor: Competitor?
    var curProfile: ProfileData

    const sharedRows: array<MenuRow>
    const registerMenu: array<MenuRow>
    const modifyMenu: array<MenuRow>
    const lineChoices: array<seq<string>>

    function State(): Session
      reads this
    {
      Session(playerName, scoreName, seedIndex, registered, playerIndex)
    }

    ghost function Menus(): MenuState
      reads sharedRows, registerMenu, modifyMenu
    {
      MenuState(sharedRows[..], registerMenu[..], modifyMenu[..])
    }

    /** The display name of the current competitor ("" when there is none). */
    function CurrentName(): string
      reads this, curCompetitor
    {
      if curCompetitor == null then "" else curCompetitor.displayName
    }

    /** The row tables have their sizes and are distinct, and a registered
        session always has a competitor and a resolved index behind it. */
    ghost predicate Valid()
      reads this, sharedRows, registerMenu, modifyMenu
    {
      && lineChoices.Length == NumTournamentOptionsLines
      && sharedRows != registerMenu && sharedRows != modifyMenu && registerMenu != modifyMenu
      && sharedRows.Length == NumRegisterMenuChoices
      && registerMenu.Length == MenuLength && modifyMenu.Length == MenuLength
      && sharedRows[SetPlayerName].choices != []
      && sharedRows[SetHighscoreName].choices != []
      && sharedRows[SetSeedNumber].choices != []
      && (registered ==> curCompetitor != null && playerIndex >= 0)
    }

    /** The program's static state before the screen is first initialised. */
    constructor ()
      ensures Valid()
      ensures State() == ResetSession && curCompetitor == null && curProfile == BlankProfile
      ensures Menus() == InitialMenus()
      ensures lineChoices[..] == [["Press START"], []]
      ensures fresh(sharedRows) && fresh(registerMenu) && fresh(modifyMenu) && fresh(lineChoices)
    {
      playerName, scoreName, seedIndex, registered, playerIndex := "", "", 0, false, -1;
      curCompetitor := null;
      curProfile := BlankProfile;
      sharedRows := new MenuRow[NumRegisterMenuChoices](i requires 0 <= i < NumRegisterMenuChoices => InitialRow(i));
      registerMenu := new MenuRow[MenuLength](i requires 0 <= i < MenuLength => InitialRow(i));
      modifyMenu := new MenuRow[MenuLength](i requires 0 <= i < MenuLength => InitialRow(i + 1));
      lineChoices := new seq<string>[NumTournamentOptionsLines](i => if i == AddPlayerLine then ["Press START"] else []);
      new;
      assert sharedRows[..] == InitialMenus().shared;
      assert registerMenu[..] == InitialMenus().registerMenu;
      assert modifyMenu[..] == InitialMenus().modifyMenu;
      assert lineChoices[..] == [["Press START"], []];
    }

    /** ResetPlayerData. */
    method ResetPlayerData()
      requires Valid()
      modifies this
      ensures Valid()
      ensures State() == ResetSession
      ensures curCompetitor == old(curCompetitor) && curProfile == old(curProfile)
    {
      playerName := "";
      scoreName := "";
      seedIndex := 0;
      registered := false;
      playerIndex := -1;
    }

    /** LoadPlayerDataFromCompetitor: copy the current competitor's fields into
        the session and mark it registered. `lookup` is what the roster's
        FindCompetitorIndex reports for the competitor; it is used only when
        no index has been resolved yet. The class invariant survives unless
        the index is unresolved and the lookup fails. */
    method LoadPlayerDataFromCompetitor(lookup: int)
      requires curCompetitor != null
      modifies this
      ensures curCompetitor == old(curCompetitor) && curProfile == old(curProfile)
      ensures old(Valid()) ==> (Valid() <==> playerIndex >= 0)
      ensures State() == Session(curCompetitor.displayName, curCompetitor.highScoreName,
                                 ToUnsigned32(curCompetitor.seedIndex), true,
                                 if old(playerIndex) == -1 then lookup else old(playerIndex))
    {
      playerName := curCompetitor.displayName;
      scoreName := curCompetitor.highScoreName;
      seedIndex := ToUnsigned32(curCompetitor.seedIndex);
      registered := true;
      if playerIndex == -1 {
        playerIndex := lookup;
      }
    }

    /** SavePlayerDataToCompetitor: write the three edited values back to the
        current competitor and touch nothing else. */
    method SavePlayerDataToCompetitor()
      requires curCompetitor != null
      modifies curCompetitor
      ensures curCompetitor.displayName == playerName
      ensures curCompetitor.highScoreName == scoreName
      ensures curCompetitor.seedIndex == AsSigned32(seedIndex)
    {
      curCompetitor.displayName := playerName;
      curCompetitor.highScoreName := scoreName;
      curCompetitor.seedIndex := AsSigned32(seedIndex);
    }

    /** LoadPlayerDataFromProfile, the callback of the "Load from USB" prompt:
        take both names from the editable profile; the seed is not touched. */
    method LoadPlayerDataFromProfile()
      requires Valid()
      modifies this
      ensures Valid()
      ensures State() == old(State()).(playerName := curProfile.displayName,
                                       scoreName := curProfile.lastUsedHighScoreName)
      ensures curCompetitor == old(curCompetitor) && curProfile == old(curProfile)
    {
      playerName := curProfile.displayName;
      scoreName := curProfile.lastUsedHighScoreName;
    }

    /** DeleteCompetitor, the callback of the delete prompt: the current
        competitor is handed to the roster's DeleteCompetitor, `deleted` is
        what that reports, and a failure is announced. */
    method DeleteCompetitor(deleted: bool) returns (effects: seq<Effect>)
      ensures |effects| > 0 && effects[0] == RosterDelete(curCompetitor)
      ensures deleted <==> effects == [RosterDelete(curCompetitor)]
      ensures !deleted ==> effects[1..] == [SystemMessage(UnableToDelete)]
    {
      effects := [RosterDelete(curCompetitor)];
      if !deleted {
        effects := effects + [SystemMessage(UnableToDelete)];
      }
    }

    /** RefreshRegisterMenuRows: show the session in the shared rows, set the
        Finish flag, then copy the shared rows set_player_name ..
        exit_and_register into the same indices of both menus. */
    method RefreshRegisterMenuRows()
      requires Valid()
      modifies sharedRows, registerMenu, modifyMenu
      ensures Valid()
      ensures Menus() == Refresh(old(Menus()), playerName, scoreName, SeedText(seedIndex))
    {
      ShowSessionInSharedRows();
      CopySharedRowsByIndex();
    }

    /** The first half of RefreshRegisterMenuRows. */
    method ShowSessionInSharedRows()
      requires Valid()
      modifies sharedRows
      ensures Valid()
      ensures sharedRows[..] == WithSessionValues(old(sharedRows[..]), playerName, scoreName, SeedText(seedIndex))
    {
      var nameRow := sharedRows[SetPlayerName];
      sharedRows[SetPlayerName] := nameRow.(choices := nameRow.choices[0 := playerName]);
      var scoreRow := sharedRows[SetHighscoreName];
      sharedRows[SetHighscoreName] := scoreRow.(choices := scoreRow.choices[0 := scoreName]);
      var seedRow := sharedRows[SetSeedNumber];
      sharedRows[SetSeedNumber] := seedRow.(choices := seedRow.choices[0 := SeedText(seedIndex)]);
      sharedRows[ExitAndRegister] := sharedRows[ExitAndRegister].(enabled := playerName != "" && scoreName != "");
    }

    /** The copy loop of RefreshRegisterMenuRows, index for index. */
    method CopySharedRowsByIndex()
      requires Valid()
      modifies registerMenu, modifyMenu
      ensures Valid()
      ensures registerMenu[..] == CopiedByIndex(old(registerMenu[..]), sharedRows[..])
      ensures modifyMenu[..] == CopiedByIndex(old(modifyMenu[..]), sharedRows[..])
    {
      var r := SetPlayerName;
      while r <= ExitAndRegister
        invariant SetPlayerName <= r <= ExitAndRegister + 1
        invariant forall i :: 0 <= i < MenuLength ==>
                    registerMenu[i] == if SetPlayerName <= i < r then sharedRows[i] else old(registerMenu[i])
        invariant forall i :: 0 <= i < MenuLength ==>
                    modifyMenu[i] == if SetPlayerName <= i < r then sharedRows[i] else old(modifyMenu[i])
      {
        registerMenu[r] := sharedRows[r];
        modifyMenu[r] := sharedRows[r];
        r := r + 1;
      }
    }

    /** DisplayRegisterMiniMenu: refresh the rows, then show one of the two menus. */
    method DisplayRegisterMiniMenu(showModify: bool) returns (effect: Effect)
      requires Valid()
      modifies sharedRows, registerMenu, modifyMenu
      ensures Valid()
      ensures Menus() == Refresh(old(Menus()), playerName, scoreName, SeedText(seedIndex))
      ensures effect == MiniMenu(showModify)
    {
      RefreshRegisterMenuRows();
      effect := MiniMenu(showModify);
    }

    /** Init: a fresh editable profile, the screen's two rows repopulated
        ("Press START"; the competitor names, or the single "-NO ENTRIES-"
        when there are none), and the mini-menu rows refreshed.
        `competitorNames` is what the roster's GetCompetitorNames appends. */
    method Init(competitorCount: nat, competitorNames: seq<string>)
      requires Valid()
      modifies this, lineChoices, sharedRows, registerMenu, modifyMenu
      ensures Valid()
      ensures State() == old(State()) && curCompetitor == old(curCompetitor)
      ensures curProfile == BlankProfile
      ensures lineChoices[AddPlayerLine] == ["Press START"]
      ensures lineChoices[ModifyPlayerLine] == if competitorCount > 0 then competitorNames else [NoEntries]
      ensures Menus() == Refresh(old(Menus()), playerName, scoreName, SeedText(seedIndex))
    {
      curProfile := BlankProfile;
      PopulateLines(competitorCount, competitorNames);
      RefreshRegisterMenuRows();
    }

    /** The part of Init that fills the screen's own two rows. */
    method PopulateLines(competitorCount: nat, competitorNames: seq<string>)
      requires lineChoices.Length == NumTournamentOptionsLines
      modifies lineChoices
      ensures lineChoices[AddPlayerLine] == ["Press START"]
      ensures lineChoices[ModifyPlayerLine] == if competitorCount > 0 then competitorNames else [NoEntries]
    {
      var line := 0;
      while line < NumTournamentOptionsLines
        invariant 0 <= line <= NumTournamentOptionsLines
        invariant forall l :: 0 <= l < line ==> lineChoices[l] == []
      {
        lineChoices[line] := [];
        line := line + 1;
      }
      lineChoices[AddPlayerLine] := lineChoices[AddPlayerLine] + ["Press START"];
      if competitorCount > 0 {
        lineChoices[ModifyPlayerLine] := lineChoices[ModifyPlayerLine] + competitorNames;
      } else {
        lineChoices[ModifyPlayerLine] := lineChoices[ModifyPlayerLine] + [NoEntries];
      }
    }

    /** HandleScreenMessage. The session moves as NextSession says; the
        competitor record is written only by Finish from the modify menu, the
        editable profile only by the memory-card scan, and the menu rows only
        when a menu is shown again. */
    method HandleScreenMessage(msg: ScreenMessage, host: Host) returns (effects: seq<Effect>)
      requires Valid()
      requires msg.IsMenuChoice(LoadFromUsb) ==> !registered
      requires msg.IsMenuChoice(ExitAndDelete) ==> curCompetitor != null
      requires msg == BackFromModifyMenu(ExitAndRegister) ==> curCompetitor != null
      modifies this, sharedRows, registerMenu, modifyMenu, curCompetitor
      ensures Valid()
      ensures State() == NextSession(old(State()), msg, host)
      ensures curCompetitor == old(curCompetitor)
      ensures msg == BackFromModifyMenu(ExitAndRegister) ==>
                && curCompetitor.displayName == old(playerName)
                && curCompetitor.highScoreName == old(scoreName)
                && curCompetitor.seedIndex == AsSigned32(old(seedIndex))
      ensures msg != BackFromModifyMenu(ExitAndRegister) && curCompetitor != null ==> unchanged(curCompetitor)
      ensures curProfile == if msg.IsMenuChoice(LoadFromUsb) then LoadedProfile(host.cardResults) else old(curProfile)
      ensures Menus() == if msg.RedisplaysMenu()
                         then Refresh(old(Menus()), playerName, scoreName, SeedText(seedIndex))
                         else old(Menus())
      ensures effects == MessageEffects(old(State()), msg, host, old(CurrentName()))
    {
      match msg {
        case BackFromRegisterMenu(code) =>
          effects := OnMenuChoice(false, code, host);
        case BackFromModifyMenu(code) =>
          effects := OnMenuChoice(true, code, host);
        case _ =>
          effects := OnEntryReturned(msg, host);
      }
    }

    /** The rest of HandleScreenMessage: a text entry or a prompt has
        returned. Entries store what was typed (the score name always
        upper-cased) and show the session's menu again. */
    method OnEntryReturned(msg: ScreenMessage, host: Host) returns (effects: seq<Effect>)
      requires Valid()
      requires !msg.BackFromRegisterMenu? && !msg.BackFromModifyMenu?
      modifies this, sharedRows, registerMenu, modifyMenu
      ensures Valid()
      ensures State() == NextSession(old(State()), msg, host)
      ensures curCompetitor == old(curCompetitor) && curProfile == old(curProfile)
      ensures Menus() == if msg.RedisplaysMenu()
                         then Refresh(old(Menus()), playerName, scoreName, SeedText(seedIndex))
                         else old(Menus())
      ensures effects == MessageEffects(old(State()), msg, host, old(CurrentName()))
    {
      StoreEntry(msg, host);
      if msg.DeletePromptClosed? {
        effects := [ReloadScreen];
      } else {
        // the USB prompt always returns to the register menu
        var e := DisplayRegisterMiniMenu(!msg.UsbPromptClosed? && registered);
        effects := [e];
      }
    }

    /** What a returning text entry stores: the display name as typed, the
        score name upper-cased (also when the entry was cancelled), the seed
        converted to `unsigned`; a cancelled entry stores nothing. */
    method StoreEntry(msg: ScreenMessage, host: Host)
      requires Valid()
      requires !msg.BackFromRegisterMenu? && !msg.BackFromModifyMenu?
      modifies this
      ensures Valid()
      ensures State() == NextSession(old(State()), msg, host)
      ensures curCompetitor == old(curCompetitor) && curProfile == old(curProfile)
    {
      match msg {
        case DisplayNameEntered(answer, cancelled) =>
          if !cancelled {
            playerName := answer;
          }
        case ScoreNameEntered(answer, cancelled) =>
          if !cancelled {
            scoreName := answer;
          }
          scoreName := ToUpper(scoreName);
        case SeedEntered(answer, cancelled) =>
          if !cancelled {
            seedIndex := ToUnsigned32(host.parseSeed(answer));
          }
        case _ =>
      }
    }

    /** The row-code switch of HandleScreenMessage, for a choice made in the
        register menu (`fromModify` false) or in the modify menu. */
    method OnMenuChoice(fromModify: bool, code: int, host: Host) returns (effects: seq<Effect>)
      requires Valid()
      requires code == LoadFromUsb ==> !registered
      requires code == ExitAndDelete || (fromModify && code == ExitAndRegister) ==> curCompetitor != null
      modifies this, curCompetitor
      ensures Valid()
      ensures State() == NextSession(old(State()), if fromModify then BackFromModifyMenu(code) else BackFromRegisterMenu(code), host)
      ensures curCompetitor == old(curCompetitor)
      ensures fromModify && code == ExitAndRegister ==>
                && curCompetitor.displayName == old(playerName)
                && curCompetitor.highScoreName == old(scoreName)
                && curCompetitor.seedIndex == AsSigned32(old(seedIndex))
      ensures !(fromModify && code == ExitAndRegister) && curCompetitor != null ==> unchanged(curCompetitor)
      ensures curProfile == if code == LoadFromUsb then LoadedProfile(host.cardResults) else old(curProfile)
      ensures effects == ChoiceEffects(old(State()), fromModify, code, host, old(CurrentName()))
    {
      effects := [];
      if code == LoadFromUsb {
        var prompt, profile := ScanMemoryCards(host.cardResults);
        curProfile := profile;
        effects := [Prompt(prompt.kind, UsbText(prompt.message), AnswerNo, ApplyProfile)];
      } else if code == SetPlayerName {
        effects := [TextEntry(DisplayNameField, PlayerNameQuestion(host.competitorCount + 1), playerName, 12)];
      } else if code == SetHighscoreName {
        effects := [TextEntry(ScoreNameField, ScoreNameQuestion(playerName), scoreName, 4)];
      } else if code == SetSeedNumber {
        effects := [TextEntry(SeedField, SeedQuestion(playerName), "", 3)];
      } else if code == ExitAndRegister {
        if !fromModify {
          match host.registration {
            case Accepted(count) =>
              effects := [RosterRegister(playerName, scoreName, seedIndex),
                          SystemMessage(Registered(playerName, count))];
              ResetPlayerData();
              effects := effects + [ReloadScreen];
            case Rejected(error) =>
              effects := [RosterRegister(playerName, scoreName, seedIndex),
                          SystemMessage(RegistrationError(error))];
          }
        } else {
          SavePlayerDataToCompetitor();
          ResetPlayerData();
          effects := [ReloadScreen];
        }
      } else if code == ExitAndDelete {
        effects := [Prompt(PromptYesNo, ConfirmDelete(playerIndex + 1, curCompetitor.displayName),
                           AnswerNo, RemoveCompetitor)];
      } else if code == ExitAndCancel {
        ResetPlayerData();
      }
    }

    /** MenuStart: only a first press counts. On Add Player the register menu
        is shown (the session is not reset); on Modify Player, unless the
        roster is empty, the selected competitor becomes current, its data is
        loaded and the modify menu is shown; any other row is left to the base
        options screen. `selection` is the Modify row's current choice and
        `lookup` what FindCompetitorIndex would report (it is not consulted,
        because the index is set first). */
    method MenuStart(event: InputEventType, row: int, roster: seq<Competitor>, selection: int, lookup: int)
      returns (effects: seq<Effect>)
      requires Valid()
      requires event == FirstPress && row == ModifyPlayerLine && |roster| > 0 ==> 0 <= selection < |roster|
      modifies this, sharedRows, registerMenu, modifyMenu
      ensures Valid()
      ensures curProfile == old(curProfile)
      ensures event != FirstPress ==>
                effects == [] && State() == old(State()) && curCompetitor == old(curCompetitor)
                && Menus() == old(Menus())
      ensures event == FirstPress && row == AddPlayerLine ==>
                && effects == [MiniMenu(false)]
                && State() == old(State()) && curCompetitor == old(curCompetitor)
                && Menus() == Refresh(old(Menus()), playerName, scoreName, SeedText(seedIndex))
      ensures event == FirstPress && row == ModifyPlayerLine && |roster| == 0 ==>
                effects == [] && State() == old(State()) && curCompetitor == old(curCompetitor)
                && Menus() == old(Menus())
      ensures event == FirstPress && row == ModifyPlayerLine && |roster| > 0 ==>
                && curCompetitor == roster[selection]
                && State() == Session(roster[selection].displayName, roster[selection].highScoreName,
                                      ToUnsigned32(roster[selection].seedIndex), true, selection)
                && effects == [MiniMenu(true)]
                && Menus() == Refresh(old(Menus()), playerName, scoreName, SeedText(seedIndex))
      ensures event == FirstPress && row != AddPlayerLine && row != ModifyPlayerLine ==>
                effects == [BaseMenuStart] && State() == old(State()) && curCompetitor == old(curCompetitor)
                && Menus() == old(Menus())
    {
      effects := [];
      if event != FirstPress {
        return;
      }
      if row == AddPlayerLine {
        var e := DisplayRegisterMiniMenu(false);
        effects := [e];
      } else if row == ModifyPlayerLine {
        if |roster| == 0 {
          return;
        }
        curCompetitor := roster[selection];
        playerIndex := selection;
        LoadPlayerDataFromCompetitor(lookup);
        var e := DisplayRegisterMiniMenu(true);
        effects := [e];
      } else {
        effects := [BaseMenuStart];
      }
    }

    /** Add Player as evidently intended: entering the register menu starts a
        fresh session, so a session left registered by an earlier modify (for
        instance after a deletion, which does not reset it) cannot reach the
        Load from USB row, whose handler insists on an unregistered session. */
    method AddPlayerResettingSession() returns (effects: seq<Effect>)
      requires Valid()
      modifies this, sharedRows, registerMenu, modifyMenu
      ensures Valid()
      ensures State() == ResetSession && !registered
      ensures curCompetitor == old(curCompetitor) && curProfile == old(curProfile)
      ensures Menus() == Refresh(old(Menus()), "", "", SeedText(0))
      ensures effects == [MiniMenu(false)]
    {
      ResetPlayerData();
      var e := DisplayRegisterMiniMenu(false);
      effects := [e];
    }
  }
}
