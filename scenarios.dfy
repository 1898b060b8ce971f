/** Whole interactions with the screen, driven through its methods only. */
module Scenarios {
  import opened Text
  import opened Numbers
  import opened MemoryCards
  import opened RegisterMenu
  import opened TournamentOptions

  /** An operator adds a player: Add Player, display name "Bob", score name
      typed in lower case, seed "7", Finish. The roster is handed "Bob",
      "BOB" and 7, accepts the entry as its third competitor, the
      announcement carries the name, and the session is reset afterwards. */
  method RegisterBob() returns (finish: seq<Effect>, after: Session)
    ensures finish == [RosterRegister("Bob", "BOB", 7), SystemMessage(Registered("Bob", 3)), ReloadScreen]
    ensures after == ResetSession
  {
    var screen := new ScreenTournamentOptions();
    var host := Host(2, [], Accepted(3), (text: string) => if text == "7" then 7 else 0);
    var e := screen.MenuStart(FirstPress, AddPlayerLine, [], 0, -1);
    TypeBob(screen, host);
    TypeSeven(screen, host);
    finish := screen.HandleScreenMessage(BackFromRegisterMenu(ExitAndRegister), host);
    after := screen.State();
  }

  /** The two name entries of RegisterBob return: the display name is stored
      as typed and the score name upper-cased. */
  method TypeBob(screen: ScreenTournamentOptions, host: Host)
    requires screen.Valid() && screen.State() == ResetSession
    modifies screen, screen.sharedRows, screen.registerMenu, screen.modifyMenu, screen.curCompetitor
    ensures screen.Valid()
    ensures screen.State() == Session("Bob", "BOB", 0, false, -1)
    ensures screen.curCompetitor == old(screen.curCompetitor)
  {
    var e := screen.HandleScreenMessage(DisplayNameEntered("Bob", false), host);
    e := screen.HandleScreenMessage(ScoreNameEntered("bob", false), host);
    UpperBob();
  }

  /** The seed entry of RegisterBob returns "7", which is stored as 7. */
  method TypeSeven(screen: ScreenTournamentOptions, host: Host)
    requires screen.Valid() && screen.State() == Session("Bob", "BOB", 0, false, -1)
    requires host.parseSeed("7") == 7
    modifies screen, screen.sharedRows, screen.registerMenu, screen.modifyMenu, screen.curCompetitor
    ensures screen.Valid()
    ensures screen.State() == Session("Bob", "BOB", 7, false, -1)
    ensures screen.curCompetitor == old(screen.curCompetitor)
  {
    var e := screen.HandleScreenMessage(SeedEntered("7", false), host);
  }

  lemma UpperBob()
    ensures ToUpper("bob") == "BOB"
  {
    ToUpperAt("bob", 0);
    ToUpperAt("bob", 1);
    ToUpperAt("bob", 2);
  }

  /** Modifying a competitor whose seed field holds -1: the session stores the
      unsigned value 2^32 - 1 (displayed as "-1"), and saving it back writes
      -1 again. */
  method ModifyKeepsNegativeSeed() returns (sessionSeed: u32, savedSeed: int, after: Session)
    ensures sessionSeed == TwoTo32 - 1
    ensures savedSeed == -1
    ensures after == ResetSession
  {
    var screen := new ScreenTournamentOptions();
    var c := new Competitor("Ann", "ANN", -1);
    var host := Host(1, [], Rejected(""), (text: string) => 0);
    var e := screen.MenuStart(FirstPress, ModifyPlayerLine, [c], 0, 0);
    sessionSeed := screen.seedIndex;
    e := screen.HandleScreenMessage(BackFromModifyMenu(ExitAndRegister), host);
    savedSeed := c.seedIndex;
    after := screen.State();
  }

  /** Modify Player on a one-entry roster, Delete, answer yes, and the
      prompt's return: the roster is asked to delete the competitor, and the
      session still belongs to it. */
  method ModifyThenDelete(screen: ScreenTournamentOptions, c: Competitor, host: Host)
    requires screen.Valid()
    modifies screen, screen.sharedRows, screen.registerMenu, screen.modifyMenu, c
    ensures screen.Valid() && screen.registered && screen.curCompetitor == c
  {
    var e := screen.MenuStart(FirstPress, ModifyPlayerLine, [c], 0, 0);
    e := screen.HandleScreenMessage(BackFromModifyMenu(ExitAndDelete), host);
    e := screen.DeleteCompetitor(true);
    assert e == [RosterDelete(c)];
    e := screen.HandleScreenMessage(DeletePromptClosed, host);
  }

  /** As written: after a deletion and the reload, Add Player shows the
      register menu, whose first row is Load from USB, while the session is
      still registered. Choosing that row would break the handler's demand
      for an unregistered session (the program aborts there). */
  method AddAfterDeleteStaysRegistered() returns (effects: seq<Effect>, registered: bool)
    ensures effects == [MiniMenu(false)]
    ensures registered
  {
    var screen := new ScreenTournamentOptions();
    var c := new Competitor("Ann", "ANN", 5);
    var host := Host(1, [], Rejected(""), (text: string) => 0);
    ModifyThenDelete(screen, c, host);
    screen.Init(0, []);
    effects := screen.MenuStart(FirstPress, AddPlayerLine, [], 0, -1);
    registered := screen.registered;
  }

  /** Corrected: with Add Player resetting the session, the same sequence
      reaches Load from USB legitimately, and with no card inserted the scan
      reports that none is available. */
  method AddAfterDeleteWithReset() returns (effects: seq<Effect>, usb: seq<Effect>)
    ensures effects == [MiniMenu(false)]
    ensures usb == [Prompt(PromptOk, UsbText(NoCardsAvailable), AnswerNo, ApplyProfile)]
  {
    var screen := new ScreenTournamentOptions();
    var c := new Competitor("Ann", "ANN", 5);
    var host := Host(1, [], Rejected(""), (text: string) => 0);
    ModifyThenDelete(screen, c, host);
    screen.Init(0, []);
    effects := screen.AddPlayerResettingSession();
    usb := screen.HandleScreenMessage(BackFromRegisterMenu(LoadFromUsb), host);
  }
}
