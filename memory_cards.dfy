/** The "Load from USB" scan: one load attempt per memory-card slot, in
    player-number order, stopping at the first slot that holds a profile
    (whether or not it could be read). */
module MemoryCards {

  /** The editable part of a profile the screen reads: what GetDisplayName()
      returns and m_sLastUsedHighScoreName. */
  datatype ProfileData = ProfileData(displayName: string, lastUsedHighScoreName: string)

  /** Profile::InitEditableData clears both names. */
  const BlankProfile := ProfileData("", "")

  /** Profile::LoadResult of one slot; a successful load carries what was read. */
  datatype LoadResult =
    | FailedNoProfile
    | FailedTampered
    | Success(profile: ProfileData)

  datatype PromptType = PromptOk | PromptYesNo

  /** The text of the prompt, as its data rather than its formatting.
      NoMessage is the still-empty message the scan starts from. */
  datatype UsbMessage =
    | NoMessage
    | CouldNotLoad(playerNumber: nat)
    | ConfirmProfile(playerName: string, scoreName: string)
    | NoCardsAvailable

  datatype UsbPrompt = UsbPrompt(kind: PromptType, message: UsbMessage)

  /** The first slot at or after `pn` that holds a profile, or |results| if none does. */
  function FirstProfileSlot(results: seq<LoadResult>, pn: nat): (i: nat)
    requires pn <= |results|
    ensures pn <= i <= |results|
    ensures forall j :: pn <= j < i ==> results[j].FailedNoProfile?
    ensures i < |results| ==> !results[i].FailedNoProfile?
    decreases |results| - pn
  {
    if pn == |results| || !results[pn].FailedNoProfile? then pn
    else FirstProfileSlot(results, pn + 1)
  }

  /** The prompt raised for the slot the scan stopped at. */
  function SlotPrompt(pn: nat, lr: LoadResult): UsbPrompt
    requires !lr.FailedNoProfile?
  {
    match lr
    case FailedTampered => UsbPrompt(PromptOk, CouldNotLoad(pn + 1))
    case Success(p) => UsbPrompt(PromptYesNo, ConfirmProfile(p.displayName, p.lastUsedHighScoreName))
  }

  /** The prompt the whole scan raises. */
  function UsbPromptFor(results: seq<LoadResult>): UsbPrompt {
    var i := FirstProfileSlot(results, 0);
    if i == |results| then UsbPrompt(PromptOk, NoCardsAvailable) else SlotPrompt(i, results[i])
  }

  /** What the editable profile holds once the scan is over: the profile read
      from the slot the scan stopped at, or the cleared data. */
  function LoadedProfile(results: seq<LoadResult>): ProfileData {
    var i := FirstProfileSlot(results, 0);
    if i < |results| && results[i].Success? then results[i].profile else BlankProfile
  }

  /** The FOREACH_PlayerNumber loop: `results[pn]` is what loading player
      `pn`'s memory card reports. Returns the prompt to raise and the profile
      data left in the editable profile. */
  method ScanMemoryCards(results: seq<LoadResult>) returns (prompt: UsbPrompt, profile: ProfileData)
    ensures prompt == UsbPromptFor(results)
    ensures profile == LoadedProfile(results)
  {
    profile := BlankProfile;
    var message := NoMessage;
    var pt := PromptOk;
    var pn := 0;
    while pn < |results|
      invariant 0 <= pn <= |results|
      invariant FirstProfileSlot(results, pn) == FirstProfileSlot(results, 0)
      invariant message == NoMessage && pt == PromptOk && profile == BlankProfile
    {
      var lr := results[pn];
      if lr.FailedNoProfile? {
        pn := pn + 1;
        continue;
      } else if lr.FailedTampered? {
        message := CouldNotLoad(pn + 1);
      } else {
        profile := lr.profile;
        pt := PromptYesNo;
        message := ConfirmProfile(lr.profile.displayName, lr.profile.lastUsedHighScoreName);
      }
      break;
    }
    if message == NoMessage {
      message := NoCardsAvailable;
    }
    prompt := UsbPrompt(pt, message);
  }

  /** The scan stops at the first slot holding a profile: whatever the slots
      before it report as "no profile" and whatever the slots after it hold,
      the prompt is that slot's. */
  lemma StopsAtFirstProfile(results: seq<LoadResult>, i: nat)
    requires i < |results| && !results[i].FailedNoProfile?
    requires forall j :: 0 <= j < i ==> results[j].FailedNoProfile?
    ensures UsbPromptFor(results) == SlotPrompt(i, results[i])
  {
  }

  /** First match wins: slots appended after one that holds a profile never
      change the outcome. */
  lemma LaterSlotsIgnored(results: seq<LoadResult>, more: seq<LoadResult>)
    requires FirstProfileSlot(results, 0) < |results|
    ensures UsbPromptFor(results + more) == UsbPromptFor(results)
    ensures LoadedProfile(results + more) == LoadedProfile(results)
  {
    var i := FirstProfileSlot(results, 0);
    var all := results + more;
    forall j | 0 <= j < i
      ensures all[j].FailedNoProfile?
    {
      assert all[j] == results[j];
    }
    assert all[i] == results[i];
    StopsAtFirstProfile(all, i);
  }

  /** "No cards available" exactly when no slot holds a profile. */
  lemma NoCardsIffNoProfile(results: seq<LoadResult>)
    ensures UsbPromptFor(results).message == NoCardsAvailable
        <==> forall j :: 0 <= j < |results| ==> results[j].FailedNoProfile?
  {
    var i := FirstProfileSlot(results, 0);
    if i < |results| {
      assert !results[i].FailedNoProfile?;
    }
  }

  /** A yes/no prompt is raised exactly when the first slot holding a profile
      was read successfully, and it shows that profile's names, which are the
      names left in the editable profile. */
  lemma ConfirmIffSuccess(results: seq<LoadResult>)
    ensures UsbPromptFor(results).kind == PromptYesNo
        <==> (exists i :: 0 <= i < |results| && results[i].Success?
                          && forall j :: 0 <= j < i ==> results[j].FailedNoProfile?)
    ensures UsbPromptFor(results).kind == PromptYesNo ==>
              UsbPromptFor(results).message
                == ConfirmProfile(LoadedProfile(results).displayName,
                                  LoadedProfile(results).lastUsedHighScoreName)
  {
    if exists i :: 0 <= i < |results| && results[i].Success?
                   && forall j :: 0 <= j < i ==> results[j].FailedNoProfile? {
      var i :| 0 <= i < |results| && results[i].Success?
               && forall j :: 0 <= j < i ==> results[j].FailedNoProfile?;
      StopsAtFirstProfile(results, i);
    }
  }

  /** The prompt is never left with an empty message, and a tampered slot is
      named by its 1-based player number. */
  lemma MessageAlwaysSet(results: seq<LoadResult>)
    ensures UsbPromptFor(results).message != NoMessage
    ensures UsbPromptFor(results).message.CouldNotLoad? ==>
              var n := UsbPromptFor(results).message.playerNumber;
              1 <= n <= |results| && results[n - 1].FailedTampered?
  {
  }

  /** Slot 1 empty, slot 2 holding "Alice"/"ALIC": the scan asks to confirm those names. */
  lemma AliceExample(third: LoadResult)
    ensures var results := [FailedNoProfile, Success(ProfileData("Alice", "ALIC")), third];
            UsbPromptFor(results) == UsbPrompt(PromptYesNo, ConfirmProfile("Alice", "ALIC"))
            && LoadedProfile(results) == ProfileData("Alice", "ALIC")
  {
    var results := [FailedNoProfile, Success(ProfileData("Alice", "ALIC")), third];
    StopsAtFirstProfile(results, 1);
  }
}
