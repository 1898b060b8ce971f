/** The rows of the registration mini-menus: the shared row table, the two
    menus built from it (one for a new registrant, one for modifying an
    existing competitor), and what a refresh does to all three. */
module RegisterMenu {
  import opened Numbers

  /** RegisterMenuChoice: the code each row reports when it is chosen, and
      the row's index in the shared table. */
  const LoadFromUsb: int := 0
  const SetPlayerName: int := 1
  const SetHighscoreName: int := 2
  const SetSeedNumber: int := 3
  const ExitAndRegister: int := 4
  const ExitAndCancel: int := 5
  const ExitAndDelete: int := 6
  const NumRegisterMenuChoices: int := 7

  /** Each of the two menus is built from six rows of the shared table. */
  const MenuLength: int := 6

  /** A mini-menu row: its code, its label, whether it can be chosen, and the
      values it displays (the edit mode and default choice are the same for
      every row and are not kept). */
  datatype MenuRow = MenuRow(code: int, name: string, enabled: bool, choices: seq<string>)

  /** The static shared row table, as the program starts with it: the three
      value rows show the initial session (empty names, seed 0), and Finish is
      disabled. */
  function InitialRow(code: int): (row: MenuRow)
    requires 0 <= code < NumRegisterMenuChoices
    ensures row.code == code
    ensures row.enabled <==> code != ExitAndRegister
  {
    if code == LoadFromUsb then MenuRow(LoadFromUsb, "Load from USB", true, [])
    else if code == SetPlayerName then MenuRow(SetPlayerName, "Set display name", true, [""])
    else if code == SetHighscoreName then MenuRow(SetHighscoreName, "Set highscore name", true, [""])
    else if code == SetSeedNumber then MenuRow(SetSeedNumber, "Set seed (optional)", true, [SeedText(0)])
    else if code == ExitAndRegister then MenuRow(ExitAndRegister, "Finish", false, [])
    else if code == ExitAndCancel then MenuRow(ExitAndCancel, "Cancel", true, [])
    else MenuRow(ExitAndDelete, "Delete", true, [])
  }

  /** The three row sequences the screen keeps. */
  datatype MenuState = MenuState(shared: seq<MenuRow>, registerMenu: seq<MenuRow>, modifyMenu: seq<MenuRow>)

  /** The register menu is built from the rows load_from_usb .. exit_and_cancel,
      the modify menu from set_player_name .. exit_and_delete. */
  function InitialMenus(): (m: MenuState)
    ensures WellFormed(m)
    ensures forall i :: 0 <= i < MenuLength ==> m.registerMenu[i].code == i
    ensures forall i :: 0 <= i < MenuLength ==> m.modifyMenu[i].code == i + 1
  {
    MenuState(seq(NumRegisterMenuChoices, i requires 0 <= i < NumRegisterMenuChoices => InitialRow(i)),
              seq(MenuLength, i requires 0 <= i < MenuLength => InitialRow(i)),
              seq(MenuLength, i requires 0 <= i < MenuLength => InitialRow(i + 1)))
  }

  /** Row counts, and a first value in each of the three rows that display one. */
  predicate WellFormed(m: MenuState) {
    && |m.shared| == NumRegisterMenuChoices
    && |m.registerMenu| == MenuLength
    && |m.modifyMenu| == MenuLength
    && m.shared[SetPlayerName].choices != []
    && m.shared[SetHighscoreName].choices != []
    && m.shared[SetSeedNumber].choices != []
  }

  /** The shared rows display the given session values, and Finish can be
      chosen exactly when both names are filled in. */
  predicate ShowsSession(rows: seq<MenuRow>, name: string, score: string, seedText: string) {
    && |rows| == NumRegisterMenuChoices
    && rows[SetPlayerName].choices != [] && rows[SetPlayerName].choices[0] == name
    && rows[SetHighscoreName].choices != [] && rows[SetHighscoreName].choices[0] == score
    && rows[SetSeedNumber].choices != [] && rows[SetSeedNumber].choices[0] == seedText
    && (rows[ExitAndRegister].enabled <==> name != "" && score != "")
  }

  /** The first half of RefreshRegisterMenuRows: the value rows and the
      Finish flag of the shared table are set from the session. */
  function WithSessionValues(rows: seq<MenuRow>, name: string, score: string, seedText: string): (r: seq<MenuRow>)
    requires |rows| == NumRegisterMenuChoices
    requires rows[SetPlayerName].choices != [] && rows[SetHighscoreName].choices != []
    requires rows[SetSeedNumber].choices != []
    ensures ShowsSession(r, name, score, seedText)
    ensures forall i :: 0 <= i < |r| ==>
              r[i].code == rows[i].code && r[i].name == rows[i].name
              && |r[i].choices| == |rows[i].choices|
              && (rows[i].choices != [] ==> r[i].choices[1..] == rows[i].choices[1..])
    ensures forall i :: 0 <= i < |r| && i != ExitAndRegister ==> r[i].enabled == rows[i].enabled
    ensures forall i :: 0 <= i < |r| && !(SetPlayerName <= i <= ExitAndRegister) ==> r[i] == rows[i]
  {
    var nameRow := rows[SetPlayerName];
    var scoreRow := rows[SetHighscoreName];
    var seedRow := rows[SetSeedNumber];
    rows[SetPlayerName := nameRow.(choices := nameRow.choices[0 := name])]
        [SetHighscoreName := scoreRow.(choices := scoreRow.choices[0 := score])]
        [SetSeedNumber := seedRow.(choices := seedRow.choices[0 := seedText])]
        [ExitAndRegister := rows[ExitAndRegister].(enabled := name != "" && score != "")]
  }

  /** The copy loop of RefreshRegisterMenuRows: for every index from
      set_player_name through exit_and_register, the shared row at that index
      replaces the menu row at the SAME index. */
  function CopiedByIndex(menu: seq<MenuRow>, shared: seq<MenuRow>): (r: seq<MenuRow>)
    requires |menu| == MenuLength && |shared| == NumRegisterMenuChoices
  {
    seq(|menu|, i requires 0 <= i < |menu| =>
      if SetPlayerName <= i <= ExitAndRegister then shared[i] else menu[i])
  }

  /** RefreshRegisterMenuRows as a whole. */
  function Refresh(m: MenuState, name: string, score: string, seedText: string): (r: MenuState)
    requires WellFormed(m)
    ensures WellFormed(r)
  {
    var shared := WithSessionValues(m.shared, name, score, seedText);
    MenuState(shared, CopiedByIndex(m.registerMenu, shared), CopiedByIndex(m.modifyMenu, shared))
  }

  /** After a refresh the shared rows show the session, both menus hold the
      shared rows at indices set_player_name .. exit_and_register, and every
      other menu row is as it was. */
  lemma RefreshCopiesByIndex(m: MenuState, name: string, score: string, seedText: string)
    requires WellFormed(m)
    ensures var r := Refresh(m, name, score, seedText);
      && ShowsSession(r.shared, name, score, seedText)
      && (forall i :: SetPlayerName <= i <= ExitAndRegister ==>
            r.registerMenu[i] == r.shared[i] && r.modifyMenu[i] == r.shared[i])
      && (forall i :: 0 <= i < MenuLength && !(SetPlayerName <= i <= ExitAndRegister) ==>
            r.registerMenu[i] == m.registerMenu[i] && r.modifyMenu[i] == m.modifyMenu[i])
  {
  }

  /** Only the last refresh matters: refreshing twice is refreshing once with the later values. */
  lemma RefreshOverwritesEarlier(m: MenuState, n1: string, s1: string, t1: string,
                                 n2: string, s2: string, t2: string)
    requires WellFormed(m)
    ensures Refresh(Refresh(m, n1, s1, t1), n2, s2, t2) == Refresh(m, n2, s2, t2)
  {
    var a := Refresh(Refresh(m, n1, s1, t1), n2, s2, t2);
    var b := Refresh(m, n2, s2, t2);
    forall i | SetPlayerName <= i <= SetSeedNumber
      ensures a.shared[i].choices == b.shared[i].choices
    {
      assert a.shared[i].choices[0] == b.shared[i].choices[0];
      assert a.shared[i].choices[1..] == b.shared[i].choices[1..];
    }
    assert a.shared == b.shared;
    assert a.registerMenu == b.registerMenu;
    assert a.modifyMenu == b.modifyMenu;
  }

  /** In the register menu a row's index is its code, so the copy by index
      keeps every row in place, and its Finish row is enabled exactly when
      both names are filled in. */
  lemma RegisterMenuKeepsLayout(m: MenuState, name: string, score: string, seedText: string)
    requires WellFormed(m)
    requires forall i :: 0 <= i < NumRegisterMenuChoices ==> m.shared[i].code == i
    requires forall i :: 0 <= i < MenuLength ==> m.registerMenu[i].code == i
    ensures var r := Refresh(m, name, score, seedText);
      && (forall i :: 0 <= i < MenuLength ==> r.registerMenu[i].code == i)
      && (r.registerMenu[ExitAndRegister].enabled <==> name != "" && score != "")
  {
  }

  /** The modify menu starts at set_player_name, so its index i holds code
      i + 1 and the copy by index shifts rows: afterwards it shows the display
      name row twice (index 0 never refreshed), the Finish row where Cancel
      was, and no Cancel row at all. The same layout results on every later
      refresh. */
  lemma ModifyMenuLayoutAfterRefresh(m: MenuState, name: string, score: string, seedText: string)
    requires WellFormed(m)
    requires forall i :: 0 <= i < NumRegisterMenuChoices ==> m.shared[i].code == i
    requires m.modifyMenu[0].code == SetPlayerName && m.modifyMenu[5].code == ExitAndDelete
    ensures var r := Refresh(m, name, score, seedText);
      && r.modifyMenu[0] == m.modifyMenu[0]
      && r.modifyMenu[1].code == SetPlayerName
      && r.modifyMenu[2].code == SetHighscoreName
      && r.modifyMenu[3].code == SetSeedNumber
      && r.modifyMenu[4].code == ExitAndRegister
      && r.modifyMenu[5].code == ExitAndDelete
      && (forall i :: 0 <= i < MenuLength ==> r.modifyMenu[i].code != ExitAndCancel)
  {
  }
}
