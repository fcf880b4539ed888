/** Session options: the login message sends all of them, a toggle sends what it changed. The host
    applies both the same way, so it should never be able to tell which it was sent. */
module SessionOptions {
  import opened Common

  datatype ConnType = DefaultConn | FileTransfer | PortForward | Rdp | ViewCamera | Terminal

  /** The switches of a peer's configuration. */
  datatype Flag =
    | ShowRemoteCursor | FollowRemoteCursor | FollowRemoteWindow | DisableAudio | DisableClipboard
    | LockAfterSessionEnd | TerminalPersistent | PrivacyMode | EnableFileCopyPaste
    | ShowQualityMonitor | AllowSwapKey | ViewOnly | ShowMyCursor

  /** The switches that are on, and the other options. */
  datatype PeerConfig = PeerConfig(on: set<Flag>, options: map<string, string>)

  /** The switches of an option message. */
  datatype Field =
    | DisableKeyboardField | DisableClipboardField | ShowRemoteCursorField | EnableFileTransferField
    | LockAfterSessionEndField | ShowMyCursorField | FollowRemoteCursorField
    | FollowRemoteWindowField | DisableAudioField | TerminalPersistentField | PrivacyModeField
    | BlockInputField

  /** The fields a message sets, to Yes or to No; all others are NotSet. */
  type OptionMessage = map<Field, bool>

  /** The names `toggle_option` knows, and any other. */
  datatype Name = Toggle(flag: Flag) | BlockInput | UnblockInput | Other(name: string)

  // The client's side

  function Flipped(on: set<Flag>, flag: Flag): set<Flag> {
    if flag in on then on - {flag} else on + {flag}
  }

  function FieldOf(flag: Flag): Option<Field> {
    match flag
    case ShowRemoteCursor => Some(ShowRemoteCursorField)
    case FollowRemoteCursor => Some(FollowRemoteCursorField)
    case FollowRemoteWindow => Some(FollowRemoteWindowField)
    case DisableAudio => Some(DisableAudioField)
    case DisableClipboard => Some(DisableClipboardField)
    case LockAfterSessionEnd => Some(LockAfterSessionEndField)
    case TerminalPersistent => Some(TerminalPersistentField)
    case PrivacyMode => Some(PrivacyModeField)
    case EnableFileCopyPaste => Some(EnableFileTransferField)
    case ShowMyCursor => Some(ShowMyCursorField)
    case _ => None
  }

  function ToggledFlag(on: set<Flag>, flag: Flag): set<Flag> {
    if flag == PrivacyMode then on
    else if flag == ViewOnly && ViewOnly in on then on - {ViewOnly, ShowMyCursor}
    else Flipped(on, flag)
  }

  /** The configuration after a toggle. */
  function Toggled(c: PeerConfig, name: Name): PeerConfig {
    match name
    case Toggle(flag) => c.(on := ToggledFlag(c.on, flag))
    case Other(name) =>
      if name in c.options && c.options[name] != "" then c.(options := c.options - {name})
      else c.(options := c.options[name := "Y"])
    case _ => c
  }

  function ViewMessage(on: set<Flag>): OptionMessage {
    if ViewOnly !in on then
      map[DisableKeyboardField := true, DisableClipboardField := true, ShowRemoteCursorField := true,
          EnableFileTransferField := false, LockAfterSessionEndField := false]
    else
      map[DisableKeyboardField := false, DisableClipboardField := DisableClipboard in on,
          ShowRemoteCursorField := ShowRemoteCursor in on,
          EnableFileTransferField := EnableFileCopyPaste in on,
          LockAfterSessionEndField := LockAfterSessionEnd in on]
      + (if ShowMyCursor in on then map[ShowMyCursorField := false] else map[])
  }

  function FlagMessage(on: set<Flag>, flag: Flag): OptionMessage {
    if flag == ViewOnly then ViewMessage(on)
    else if FieldOf(flag).Some? then map[FieldOf(flag).value := flag !in on]
    else map[]
  }

  /** The message a toggle sends, computed from the configuration before it. */
  function ToggleMessage(c: PeerConfig, name: Name): Option<OptionMessage> {
    match name
    case Toggle(flag) => Some(FlagMessage(c.on, flag))
    case BlockInput => Some(map[BlockInputField := true])
    case UnblockInput => Some(map[BlockInputField := false])
    case Other(_) => None
  }

  const LOGIN_FIELDS :=
    {DisableKeyboardField, ShowRemoteCursorField, ShowMyCursorField, FollowRemoteCursorField,
     FollowRemoteWindowField, LockAfterSessionEndField, DisableAudioField, EnableFileTransferField,
     DisableClipboardField}

  predicate LoginSets(on: set<Flag>, f: Field) {
    match f
    case DisableKeyboardField => ViewOnly in on
    case ShowRemoteCursorField => ViewOnly in on || ShowRemoteCursor in on
    case ShowMyCursorField => ViewOnly in on && ShowMyCursor in on
    case FollowRemoteCursorField => FollowRemoteCursor in on
    case FollowRemoteWindowField => FollowRemoteWindow in on
    case LockAfterSessionEndField => ViewOnly !in on && LockAfterSessionEnd in on
    case DisableAudioField => DisableAudio in on
    case EnableFileTransferField => ViewOnly !in on && EnableFileCopyPaste in on
    case DisableClipboardField => ViewOnly in on || DisableClipboard in on
    case _ => false
  }

  /** The switches a login sends; it never sends a No. */
  function LoginMessage(conn: ConnType, c: PeerConfig): Option<OptionMessage> {
    match conn
    case PortForward => None
    case Rdp => None
    case FileTransfer => None
    case Terminal => if TerminalPersistent in c.on then Some(map[TerminalPersistentField := true]) else None
    case _ => Some(map f | f in LOGIN_FIELDS && LoginSets(c.on, f) :: true)
  }

  class LoginConfigHandler {
    const connType: ConnType
    var config: PeerConfig
    var stored: PeerConfig // the peer's file

    ghost predicate Valid()
      reads this
    {
      stored == config
    }

    constructor (connType: ConnType, stored: PeerConfig)
      ensures Valid() && config == stored && this.connType == connType
    {
      this.connType := connType;
      this.stored := stored;
      this.config := stored;
    }

    method SaveConfig(c: PeerConfig)
      modifies this
      ensures config == c && stored == c
    {
      stored := c;
      config := c;
    }

    /** Toggles one option, saves it and returns the message for the host. */
    method ToggleOption(name: Name) returns (msg: Option<OptionMessage>)
      requires Valid()
      modifies this
      ensures Valid() && config == Toggled(old(config), name)
      ensures msg == ToggleMessage(old(config), name)
    {
      var option: OptionMessage := map[];
      var on := stored.on;
      match name {
        case Toggle(flag) =>
          if flag == PrivacyMode {
            option := option[PrivacyModeField := PrivacyMode !in on];
          } else if flag == ViewOnly {
            on := Flipped(on, ViewOnly);
            if ViewOnly in on {
              option := map[DisableKeyboardField := true, DisableClipboardField := true,
                            ShowRemoteCursorField := true, EnableFileTransferField := false,
                            LockAfterSessionEndField := false];
            } else {
              // read from the configuration in memory, not the one loaded
              option := map[DisableKeyboardField := false,
                            DisableClipboardField := DisableClipboard in config.on,
                            ShowRemoteCursorField := ShowRemoteCursor in config.on,
                            EnableFileTransferField := EnableFileCopyPaste in config.on,
                            LockAfterSessionEndField := LockAfterSessionEnd in config.on];
              if ShowMyCursor in on {
                on := on - {ShowMyCursor};
                option := option[ShowMyCursorField := false];
              }
            }
            assert option == ViewMessage(config.on);
          } else {
            on := Flipped(on, flag);
            if FieldOf(flag).Some? {
              option := option[FieldOf(flag).value := flag in on];
            }
            assert option == FlagMessage(config.on, flag);
          }
        case BlockInput =>
          return Some(map[BlockInputField := true]);
        case UnblockInput =>
          return Some(map[BlockInputField := false]);
        case Other(other) =>
          if other in config.options && config.options[other] != "" {
            config := config.(options := config.options - {other});
          } else {
            config := config.(options := config.options[other := "Y"]);
          }
          stored := config;
          return None;
      }
      SaveConfig(stored.(on := on));
      return Some(option);
    }
  }

  // The host's side

  /** The host changes what a message sets and keeps the rest. */
  function Apply(h: set<Field>, m: OptionMessage): set<Field> {
    (h - m.Keys) + (set f | f in m && m[f])
  }

  function AfterLogin(c: PeerConfig): set<Field> {
    Apply({}, LoginMessage(DefaultConn, c).value)
  }

  function AfterToggle(h: set<Field>, c: PeerConfig, name: Name): set<Field> {
    match ToggleMessage(c, name)
    case Some(m) => Apply(h, m)
    case None => h
  }

  /** The host's options are those a new login would give it. */
  predicate LikeLogin(h: set<Field>, c: PeerConfig) {
    h * LOGIN_FIELDS == AfterLogin(c)
  }

  predicate Governed(flag: Flag) {
    flag in {ShowRemoteCursor, DisableClipboard, EnableFileCopyPaste, LockAfterSessionEnd}
  }

  /** When a toggle tells the host what a new login would: an option that view-only overrides must
      come out at the value view-only gives it, and the own cursor belongs to view-only. */
  predicate Harmless(c: PeerConfig, name: Name) {
    match name
    case Toggle(ShowRemoteCursor) => ViewOnly in c.on ==> ShowRemoteCursor !in c.on
    case Toggle(DisableClipboard) => ViewOnly in c.on ==> DisableClipboard !in c.on
    case Toggle(EnableFileCopyPaste) => ViewOnly in c.on ==> EnableFileCopyPaste in c.on
    case Toggle(LockAfterSessionEnd) => ViewOnly in c.on ==> LockAfterSessionEnd in c.on
    case Toggle(ShowMyCursor) => ViewOnly !in c.on ==> ShowMyCursor in c.on
    case Toggle(ViewOnly) => ViewOnly !in c.on ==> ShowMyCursor !in c.on
    case _ => true
  }

  lemma LoginField(c: PeerConfig, f: Field)
    requires f in LOGIN_FIELDS
    ensures f in AfterLogin(c) <==> LoginSets(c.on, f)
  {
  }

  lemma LikeLoginByField(h: set<Field>, c: PeerConfig)
    ensures LikeLogin(h, c) <==> forall f :: f in LOGIN_FIELDS ==> (f in h <==> LoginSets(c.on, f))
  {
    forall f | f in LOGIN_FIELDS ensures f in AfterLogin(c) <==> LoginSets(c.on, f) {
      LoginField(c, f);
    }
    assert AfterLogin(c) <= LOGIN_FIELDS;
    if forall f :: f in LOGIN_FIELDS ==> (f in h <==> LoginSets(c.on, f)) {
      assert h * LOGIN_FIELDS == AfterLogin(c);
    } else {
      var f :| f in LOGIN_FIELDS && (f in h) != LoginSets(c.on, f);
      assert (f in h * LOGIN_FIELDS) != (f in AfterLogin(c));
    }
  }

  /** A switch other than view-only moves at most its own field. */
  lemma OtherFields(on: set<Flag>, flag: Flag, f: Field)
    requires flag != ViewOnly && FieldOf(flag) != Some(f)
    ensures LoginSets(ToggledFlag(on, flag), f) == LoginSets(on, f)
  {
  }

  /** Whether the switch's own field is told as a login would tell it. */
  lemma OwnField(c: PeerConfig, flag: Flag)
    requires flag != ViewOnly && FieldOf(flag).Some? && FieldOf(flag).value in LOGIN_FIELDS
    ensures (flag !in c.on) == LoginSets(ToggledFlag(c.on, flag), FieldOf(flag).value)
       <==> Harmless(c, Toggle(flag))
  {
  }

  lemma FlagAgrees(h: set<Field>, c: PeerConfig, flag: Flag)
    requires LikeLogin(h, c) && flag != ViewOnly
    ensures LikeLogin(Apply(h, FlagMessage(c.on, flag)), Toggled(c, Toggle(flag)))
       <==> Harmless(c, Toggle(flag))
  {
    var m := FlagMessage(c.on, flag);
    var h', on' := Apply(h, m), ToggledFlag(c.on, flag);
    LikeLoginByField(h, c);
    LikeLoginByField(h', Toggled(c, Toggle(flag)));
    forall f | f in LOGIN_FIELDS && FieldOf(flag) != Some(f) ensures f in h' <==> LoginSets(on', f) {
      OtherFields(c.on, flag, f);
    }
    if FieldOf(flag).Some? && FieldOf(flag).value in LOGIN_FIELDS {
      OwnField(c, flag);
      assert (FieldOf(flag).value in h') == (flag !in c.on);
    }
  }

  lemma ViewFields(h: set<Field>, on: set<Flag>, f: Field)
    requires f in LOGIN_FIELDS && (f in h <==> LoginSets(on, f))
    ensures (f in Apply(h, ViewMessage(on)) <==> LoginSets(ToggledFlag(on, ViewOnly), f))
       <==> (f == ShowMyCursorField && ViewOnly !in on ==> ShowMyCursor !in on)
  {
  }

  lemma ViewAgrees(h: set<Field>, c: PeerConfig)
    requires LikeLogin(h, c)
    ensures LikeLogin(Apply(h, ViewMessage(c.on)), Toggled(c, Toggle(ViewOnly)))
       <==> Harmless(c, Toggle(ViewOnly))
  {
    LikeLoginByField(h, c);
    LikeLoginByField(Apply(h, ViewMessage(c.on)), Toggled(c, Toggle(ViewOnly)));
    forall f | f in LOGIN_FIELDS
      ensures (f in Apply(h, ViewMessage(c.on)) <==> LoginSets(ToggledFlag(c.on, ViewOnly), f))
         <==> (f == ShowMyCursorField && ViewOnly !in c.on ==> ShowMyCursor !in c.on)
    {
      ViewFields(h, c.on, f);
    }
    assert ShowMyCursorField in LOGIN_FIELDS;
  }

  /** From a host that stands where a login would leave it, a toggle keeps it there exactly when the
      toggle is harmless. */
  lemma ToggleAgrees(h: set<Field>, c: PeerConfig, name: Name)
    requires LikeLogin(h, c)
    ensures LikeLogin(AfterToggle(h, c, name), Toggled(c, name)) <==> Harmless(c, name)
  {
    if name == Toggle(ViewOnly) {
      ViewAgrees(h, c);
    } else if name.Toggle? {
      FlagAgrees(h, c, name.flag);
    } else {
      LikeLoginByField(h, c);
      LikeLoginByField(AfterToggle(h, c, name), Toggled(c, name));
    }
  }

  // Whole sessions

  function ConfigAfter(c: PeerConfig, names: seq<Name>): PeerConfig {
    if |names| == 0 then c else Toggled(ConfigAfter(c, names[..|names| - 1]), names[|names| - 1])
  }

  /** The login message, and every later toggle message folded onto it. */
  function HostAfter(c: PeerConfig, names: seq<Name>): set<Field> {
    if |names| == 0 then AfterLogin(c)
    else
      var n := |names| - 1;
      AfterToggle(HostAfter(c, names[..n]), ConfigAfter(c, names[..n]), names[n])
  }

  /** The options view-only governs are toggled only outside it, the own cursor only inside. */
  predicate Disciplined(c: PeerConfig, names: seq<Name>) {
    forall k :: 0 <= k < |names| && names[k].Toggle? ==>
      var before := ConfigAfter(c, names[..k]);
      && (Governed(names[k].flag) ==> ViewOnly !in before.on)
      && (names[k].flag == ShowMyCursor ==> ViewOnly in before.on)
  }

  predicate CursorInside(c: PeerConfig) {
    ShowMyCursor in c.on ==> ViewOnly in c.on
  }

  /** The host follows any session whose toggles are all harmless. */
  lemma {:induction false} HarmlessSession(c: PeerConfig, names: seq<Name>)
    requires forall k :: 0 <= k < |names| ==> Harmless(ConfigAfter(c, names[..k]), names[k])
    ensures LikeLogin(HostAfter(c, names), ConfigAfter(c, names))
  {
    if |names| == 0 {
      LikeLoginByField(AfterLogin(c), c);
    } else {
      var n := |names| - 1;
      assert forall k :: 0 <= k < n ==> names[..n][..k] == names[..k];
      HarmlessSession(c, names[..n]);
      ToggleAgrees(HostAfter(c, names[..n]), ConfigAfter(c, names[..n]), names[n]);
    }
  }

  /** The first harmful toggle of a session leaves the host apart from what a login would say. */
  lemma FirstHarm(c: PeerConfig, names: seq<Name>, name: Name)
    requires forall k :: 0 <= k < |names| ==> Harmless(ConfigAfter(c, names[..k]), names[k])
    requires !Harmless(ConfigAfter(c, names), name)
    ensures !LikeLogin(HostAfter(c, names + [name]), ConfigAfter(c, names + [name]))
  {
    HarmlessSession(c, names);
    ToggleAgrees(HostAfter(c, names), ConfigAfter(c, names), name);
    assert (names + [name])[..|names|] == names;
  }

  lemma DisciplinedStep(c: PeerConfig, name: Name)
    requires CursorInside(c)
    requires name.Toggle? && Governed(name.flag) ==> ViewOnly !in c.on
    requires name == Toggle(ShowMyCursor) ==> ViewOnly in c.on
    ensures Harmless(c, name) && CursorInside(Toggled(c, name))
  {
  }

  lemma {:induction false} DisciplineIsHarmless(c: PeerConfig, names: seq<Name>)
    requires Disciplined(c, names) && CursorInside(c)
    ensures forall k :: 0 <= k < |names| ==> Harmless(ConfigAfter(c, names[..k]), names[k])
    ensures CursorInside(ConfigAfter(c, names))
  {
    if |names| > 0 {
      var n := |names| - 1;
      assert forall k :: 0 <= k < n ==> names[..n][..k] == names[..k];
      DisciplineIsHarmless(c, names[..n]);
      DisciplinedStep(ConfigAfter(c, names[..n]), names[n]);
    }
  }

  /** Over every disciplined session the host ends where a new login would put it, and the own cursor
      is shown only in view-only. */
  lemma ToggledLikeLogin(c: PeerConfig, names: seq<Name>)
    requires Disciplined(c, names) && CursorInside(c)
    ensures LikeLogin(HostAfter(c, names), ConfigAfter(c, names))
    ensures CursorInside(ConfigAfter(c, names))
  {
    DisciplineIsHarmless(c, names);
    HarmlessSession(c, names);
  }

  // What a session's toggles come to

  function Count(names: seq<Name>, name: Name): nat {
    if |names| == 0 then 0
    else Count(names[..|names| - 1], name) + (if names[|names| - 1] == name then 1 else 0)
  }

  predicate Odd(n: nat) {
    n % 2 == 1
  }

  /** A switch stands where it stood if it was toggled an even number of times, else on the other side; the
      privacy mode, which the host decides on, never moves. The own cursor, which view-only takes along,
      is apart. */
  lemma {:induction false} FlagParity(c: PeerConfig, names: seq<Name>, flag: Flag)
    requires flag != ShowMyCursor
    ensures flag in ConfigAfter(c, names).on <==>
              (flag in c.on) != (flag != PrivacyMode && Odd(Count(names, Toggle(flag))))
  {
    if |names| > 0 {
      FlagParity(c, names[..|names| - 1], flag);
    }
  }

  predicate IsSet(c: PeerConfig, name: string) {
    name in c.options && c.options[name] != ""
  }

  /** Any other option is set, to `Y`, or removed, in turn; one that is not toggled keeps its value. */
  lemma {:induction false} OptionParity(c: PeerConfig, names: seq<Name>, name: string)
    ensures var c' := ConfigAfter(c, names);
            var n := Count(names, Other(name));
            && (IsSet(c', name) <==> IsSet(c, name) != Odd(n))
            && (n > 0 ==> (if IsSet(c', name) then c'.options[name] == "Y" else name !in c'.options))
            && (n == 0 ==> (name in c'.options <==> name in c.options))
            && (n == 0 && name in c.options ==> c'.options[name] == c.options[name])
  {
    if |names| > 0 {
      OptionParity(c, names[..|names| - 1], name);
    }
  }

  predicate Blocked(names: seq<Name>) {
    exists k :: 0 <= k < |names| && names[k] == BlockInput && UnblockInput !in names[k..]
  }

  lemma BlockedSnoc(names: seq<Name>, name: Name)
    ensures Blocked(names + [name]) <==> name == BlockInput || (name != UnblockInput && Blocked(names))
  {
    var all := names + [name];
    if name == BlockInput {
      assert all[|names|..] == [name];
    } else {
      if Blocked(all) {
        var k :| 0 <= k < |all| && all[k] == BlockInput && UnblockInput !in all[k..];
        assert all[k..] == names[k..] + [name];
        assert all[k..][|names| - k] == name;
        assert forall i :: 0 <= i < |names[k..]| ==> names[k..][i] == all[k..][i];
      }
      if name != UnblockInput && Blocked(names) {
        var k :| 0 <= k < |names| && names[k] == BlockInput && UnblockInput !in names[k..];
        assert all[k..] == names[k..] + [name];
      }
    }
  }

  /** The fields a login does not set: the input is blocked if the last word on it was to block it, the
      privacy mode is asked for if it was toggled and not on, and a terminal is kept as last toggled. */
  lemma {:induction false} OtherFieldsFollow(c: PeerConfig, names: seq<Name>)
    ensures var h := HostAfter(c, names);
            && (BlockInputField in h <==> Blocked(names))
            && (PrivacyModeField in h <==> Toggle(PrivacyMode) in names && PrivacyMode !in c.on)
            && (TerminalPersistentField in h <==>
                  Toggle(TerminalPersistent) in names && TerminalPersistent in ConfigAfter(c, names).on)
  {
    if |names| > 0 {
      var n := |names| - 1;
      var before, name := names[..n], names[n];
      assert names == before + [name];
      OtherFieldsFollow(c, before);
      BlockedSnoc(before, name);
      FlagParity(c, before, PrivacyMode);
      StepFollows(HostAfter(c, before), ConfigAfter(c, before), name);
      TerminalFollows(HostAfter(c, before), ConfigAfter(c, before), name);
    }
  }

  lemma StepFollows(h: set<Field>, c: PeerConfig, name: Name)
    ensures var h' := AfterToggle(h, c, name);
            && (BlockInputField in h' <==> name == BlockInput || (name != UnblockInput && BlockInputField in h))
            && (PrivacyModeField in h' <==>
                  if name == Toggle(PrivacyMode) then PrivacyMode !in c.on else PrivacyModeField in h)
  {
  }

  lemma TerminalFollows(h: set<Field>, c: PeerConfig, name: Name)
    ensures TerminalPersistentField in AfterToggle(h, c, name) <==>
              if name == Toggle(TerminalPersistent) then TerminalPersistent in Toggled(c, name).on
              else TerminalPersistentField in h
    ensures name != Toggle(TerminalPersistent) ==>
              (TerminalPersistent in Toggled(c, name).on <==> TerminalPersistent in c.on)
  {
  }

  /** Only the other options send no message; a login sends none for a tunnel, a file transfer and a
      terminal that is not kept, and never a No. */
  lemma WhoIsTold(conn: ConnType, c: PeerConfig, name: Name)
    ensures ToggleMessage(c, name) == None <==> name.Other?
    ensures LoginMessage(conn, c) == None <==>
              conn in {PortForward, Rdp, FileTransfer} || (conn == Terminal && TerminalPersistent !in c.on)
    ensures LoginMessage(conn, c).Some? ==>
              && (forall f :: f in LoginMessage(conn, c).value ==> LoginMessage(conn, c).value[f])
              && (conn == Terminal ==> LoginMessage(conn, c).value.Keys == {TerminalPersistentField})
              && (conn != Terminal ==> LoginMessage(conn, c) == LoginMessage(DefaultConn, c))
  {
  }
}
