/**
 * `getRoomInfo`: the three-way room classifier. A missing room is
 * "unknown"; otherwise the trimmed room is remote, a valid room, or an
 * error, tested in that order.
 */
module ScheduleUtils {
  import opened Wrappers
  import opened JsText

  const ICON_UNKNOWN: string := "\U{1F4CD}"
  const ICON_REMOTE: string := "\U{1F3E0}"
  const ICON_DOOR: string := "\U{1F6AA}"
  const ICON_WARNING: string := "\U{26A0}\U{FE0F}"

  datatype RoomInfo = RoomInfo(icon: string, text: string, isError: bool)

  const UNKNOWN_ROOM: RoomInfo := RoomInfo(ICON_UNKNOWN, "Salle inconnue", false)
  const REMOTE_ROOM: RoomInfo := RoomInfo(ICON_REMOTE, "Distanciel", false)

  /** The remote test on the trimmed room: "SALLE" prefix ignoring case, or "distanciel" / "visio" inside. */
  predicate IsRemoteRoom(r: string) {
    StartsWith(Upper(r), "SALLE") || Contains(Lower(r), "distanciel") || Contains(Lower(r), "visio")
  }

  /** The valid-room test on the trimmed room: a capital "N" first, or "EPSI" inside ignoring case. */
  predicate IsValidRoom(r: string) {
    StartsWith(r, "N") || Contains(Upper(r), "EPSI")
  }

  /** `!roomName`: null, undefined and the empty string. */
  predicate IsMissing(roomName: Option<string>) {
    roomName.None? || roomName.value == ""
  }

  function GetRoomInfo(roomName: Option<string>): (info: RoomInfo)
    ensures IsMissing(roomName) ==> info == UNKNOWN_ROOM
    ensures !IsMissing(roomName) && IsRemoteRoom(Trim(roomName.value)) ==> info == REMOTE_ROOM
    ensures !IsMissing(roomName) && !IsRemoteRoom(Trim(roomName.value)) ==>
              info.text == Trim(roomName.value)
              && (info.isError <==> !IsValidRoom(Trim(roomName.value)))
              && info.icon == (if IsValidRoom(Trim(roomName.value)) then ICON_DOOR else ICON_WARNING)
  {
    if IsMissing(roomName) then UNKNOWN_ROOM
    else
      var r := Trim(roomName.value);
      if IsRemoteRoom(r) then REMOTE_ROOM
      else if IsValidRoom(r) then RoomInfo(ICON_DOOR, r, false)
      else RoomInfo(ICON_WARNING, r, true)
  }

  /**
   * Exactly one of the four outcomes applies, told apart by the icon, and
   * the error flag is set in the last one only.
   */
  lemma ExactlyOneOutcome(roomName: Option<string>)
    ensures GetRoomInfo(roomName).icon in {ICON_UNKNOWN, ICON_REMOTE, ICON_DOOR, ICON_WARNING}
    ensures GetRoomInfo(roomName).isError <==> GetRoomInfo(roomName).icon == ICON_WARNING
    ensures GetRoomInfo(roomName).icon == ICON_UNKNOWN <==> IsMissing(roomName)
    ensures GetRoomInfo(roomName).icon == ICON_REMOTE <==> !IsMissing(roomName) && IsRemoteRoom(Trim(roomName.value))
    ensures GetRoomInfo(roomName).icon == ICON_DOOR <==>
              !IsMissing(roomName) && !IsRemoteRoom(Trim(roomName.value)) && IsValidRoom(Trim(roomName.value))
  {
    assert ICON_UNKNOWN != ICON_REMOTE && ICON_UNKNOWN != ICON_DOOR && ICON_UNKNOWN != ICON_WARNING;
    assert ICON_REMOTE != ICON_DOOR && ICON_REMOTE != ICON_WARNING && ICON_DOOR != ICON_WARNING;
  }

  /**
   * Trimming first changes nothing as long as something is left; a
   * whitespace-only room is not missing and lands in the error case with
   * empty text.
   */
  lemma TrimmedInputSameInfo(room: string)
    ensures Trim(room) != "" ==> GetRoomInfo(Some(Trim(room))) == GetRoomInfo(Some(room))
    ensures room != "" && Trim(room) == "" ==> GetRoomInfo(Some(room)) == RoomInfo(ICON_WARNING, "", true)
  {
    TrimIdempotent(room);
    if room != "" && Trim(room) == "" {
      assert !StartsWith(Upper(""), "SALLE");
      assert !Contains(Lower(""), "distanciel") && !Contains(Lower(""), "visio");
      assert !StartsWith("", "N") && !Contains(Upper(""), "EPSI");
    }
  }

  /** Remote wins over valid: "N12 visio" starts with "N" but is remote. */
  lemma RemoteTakesPriority()
    ensures IsValidRoom("N12 visio")
    ensures GetRoomInfo(Some("N12 visio")) == REMOTE_ROOM
  {
    var r := "N12 visio";
    TrimWithoutOuterSpace(r);
    LowerContainsVisio(r);
    assert r[..1] == "N";
  }

  lemma LowerContainsVisio(r: string)
    requires r == "N12 visio"
    ensures Contains(Lower(r), "visio")
  {
    assert Lower(r)[4..9] == "visio";
    assert OccursAt(Lower(r), "visio", 4);
  }

  /**
   * The views mark a room remote when it starts with "SALLE" exactly; every
   * such room is remote here too.
   */
  lemma DisplayRemoteImpliesRemote(room: string)
    requires StartsWith(room, "SALLE")
    ensures GetRoomInfo(Some(room)) == REMOTE_ROOM
  {
    PrefixSurvivesTrim(room, "SALLE");
    var t := Trim(room);
    assert Upper(t)[..5] == t[..5];
  }

  /** The converse fails: " salle 3" is remote here but shown as is by the views. */
  lemma RemoteNotDisplayRemote()
    ensures GetRoomInfo(Some(" salle 3")) == REMOTE_ROOM && !StartsWith(" salle 3", "SALLE")
  {
    SpacedRoomTrims();
    LowerSalleIsRemote();
  }

  lemma SpacedRoomTrims()
    ensures Trim(" salle 3") == "salle 3"
  {
    var s := " salle 3";
    assert TrimStartIndex(s[1..]) == 0 by {
      assert s[1..][0] == 's';
    }
    assert TrimEndIndex(s, 1) == |s| by {
      assert s[|s| - 1] == '3';
    }
    assert s[1..|s|] == "salle 3";
  }

  lemma LowerSalleIsRemote()
    ensures IsRemoteRoom("salle 3")
  {
    assert Upper("salle 3")[..5] == "SALLE";
  }
}
