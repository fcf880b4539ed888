/** Where the password of a session came from. A password shared through an address book, or built
    in by the distributor, must not end up among the user's own; the only thing that keeps it out is
    the recorded source, across four handlers and reconnections. */
module PasswordOrigin {
  import opened Common

  type Bytes = seq<Byte>

  datatype Source = PersonalAb(hash: Bytes) | SharedAb(shared: Bytes) | Undefined

  /** The truth the source should record: a text hashed with the salt of the time, typed, preset, shared or
      built in, or a hash taken as it was from the peer's file or the personal address book. */
  datatype Origin =
    | Nowhere
    | Typed(text: Bytes, salt: Bytes)
    | Preset(text: Bytes, salt: Bytes)
    | FromFile(hash: Bytes)
    | Personal(hash: Bytes)
    | Shared(password: Bytes, salt: Bytes)

  /** The hash function: password and salt. */
  type Sha = (Bytes, Bytes) -> Bytes

  /** The password an origin stands for. */
  function Meant(sha: Sha, o: Origin): Bytes {
    match o
    case Nowhere => []
    case Typed(text, salt) => sha(text, salt)
    case Preset(text, salt) => sha(text, salt)
    case FromFile(hash) => hash
    case Personal(hash) => hash
    case Shared(password, salt) => sha(password, salt)
  }

  /** The handler's fields (a preset password, a shared one still pending, whether a switch uuid is
      waiting); the peer's file; where both passwords came from, and whether a switch of sides has wiped
      the source since the password in use was chosen; what was synchronised to the personal address
      book. `salt` is None until the host's hash has arrived. */
  datatype Session = Session(
    password: Bytes, source: Source, remember: bool, preset: Bytes, pending: Option<Bytes>, uuid: bool,
    salt: Option<Bytes>, stored: Bytes, origin: Origin, wiped: bool, storedOrigin: Origin, synced: seq<Origin>)

  predicate IsPersonalAb(source: Source, password: Bytes) {
    password != [] && source == PersonalAb(password)
  }

  predicate IsSharedAb(sha: Sha, source: Source, password: Bytes, salt: Bytes) {
    password != [] && source.SharedAb? && sha(source.shared, salt) == password
  }

  // The handlers

  /** What the UI asks for with a session: a password, shared or preset, the connection token of the
      session before, a switch uuid, and the peer's option whether to remember a preset password. */
  datatype Entry = Entry(password: Bytes, shared: bool, token: bool, uuid: bool, flag: Option<bool>)

  /** The last password and its source come with a connection token, which needs a password. */
  function Tokened(s: Session, token: bool): Session {
    if token && s.password != [] then s
    else s.(password := [], source := Undefined, origin := Nowhere, wiped := false)
  }

  /** A new handler for the same peer. */
  function Initialize(s: Session, a: Entry): Session {
    var preset := if a.shared then [] else a.password;
    Tokened(s, a.token).(
      remember := if preset != [] && a.flag.Some? then a.flag.value else s.stored != [],
      preset := preset, pending := if a.shared then Some(a.password) else None, uuid := a.uuid, salt := None)
  }

  /** What a host's hash meets: its salt, the personal address book's hash and the built-in password
      (empty for none), and whether this machine knows of the switch of sides. */
  datatype Greeting = Greeting(salt: Bytes, personal: Bytes, builtin: Bytes, trusted: bool)

  predicate Switches(s: Session, g: Greeting) {
    s.uuid && g.trusted
  }

  function FromPreset(sha: Sha, s: Session, g: Greeting): Session {
    if s.password == [] && s.preset != [] then
      s.(password := sha(s.preset, g.salt), source := Undefined, origin := Preset(s.preset, g.salt), wiped := false)
    else s
  }

  function FromShared(sha: Sha, s: Session, g: Greeting): Session {
    if s.pending.Some? && s.pending.value != [] then
      s.(password := sha(s.pending.value, g.salt), source := SharedAb(s.pending.value),
         origin := Shared(s.pending.value, g.salt), wiped := false, pending := None)
    else s.(pending := None)
  }

  function FromStored(s: Session): Session {
    if s.password == [] && s.stored != [] then
      s.(password := s.stored, source := Undefined, origin := FromFile(s.stored), wiped := false)
    else s
  }

  function FromPersonal(s: Session, g: Greeting): Session {
    if s.password == [] && g.personal != [] then
      s.(password := g.personal, source := PersonalAb(g.personal), origin := Personal(g.personal), wiped := false)
    else s
  }

  function FromBuiltin(sha: Sha, s: Session, g: Greeting): Session {
    if s.password == [] && g.builtin != [] then
      s.(password := sha(g.builtin, g.salt), source := SharedAb(g.builtin),
         origin := Shared(g.builtin, g.salt), wiped := false)
    else s
  }

  /** Without a password so far: the peer's file, the personal address book, the built-in one. */
  function FellBack(sha: Sha, s: Session, g: Greeting): Session {
    FromBuiltin(sha, FromPersonal(FromStored(s), g), g)
  }

  function HandleHash(sha: Sha, s: Session, g: Greeting): Session {
    var s' := Greeted(s, g);
    if Switches(s, g) then s'.(source := Undefined, wiped := true)
    else FellBack(sha, FromShared(sha, FromPreset(sha, s', g), g), g)
  }

  /** The salt is noted and the switch uuid taken, whatever comes of it. */
  function Greeted(s: Session, g: Greeting): Session {
    s.(salt := Some(g.salt), uuid := false)
  }

  /** An empty or wrong password is forgotten; other errors leave it. */
  function HandleLoginError(s: Session, wrong: bool): Session {
    if wrong then s.(password := [], origin := Nowhere) else s
  }

  function HandleLoginFromUi(sha: Sha, s: Session, typed: Bytes, remember: bool): Session
    requires s.salt.Some?
  {
    if typed == [] then FromStored(s)
    else
      s.(password := sha(typed, s.salt.value), source := Undefined, origin := Typed(typed, s.salt.value),
         wiped := false, remember := remember)
  }

  /** Files or clears the password after a login, and reports it to the personal address book. */
  function HandlePeerInfo(sha: Sha, s: Session): Session
    requires s.salt.Some?
  {
    var shared := IsSharedAb(sha, s.source, s.password, s.salt.value);
    var personal := IsPersonalAb(s.source, s.password);
    var s' :=
      if s.remember then
        if s.password != [] && s.password != s.stored && !shared then
          s.(stored := s.password, storedOrigin := s.origin)
        else s
      else if personal then s.(stored := s.password, storedOrigin := s.origin)
      else s.(stored := [], storedOrigin := Nowhere);
    if s'.stored != [] && !shared && !personal then s'.(synced := s.synced + [s'.storedOrigin]) else s'
  }

  class LoginConfigHandler {
    var password: Bytes
    var passwordSource: Source
    var remember: bool
    var preset: Bytes // the session's, handed to every hash
    var sharedPassword: Option<Bytes>
    var switchUuid: bool
    var salt: Option<Bytes>
    var stored: Bytes // the password in the peer's file
    ghost var origin: Origin
    ghost var wiped: bool
    ghost var storedOrigin: Origin
    ghost var synced: seq<Origin>

    ghost function View(): Session
      reads this
    {
      Session(password, passwordSource, remember, preset, sharedPassword, switchUuid, salt, stored,
              origin, wiped, storedOrigin, synced)
    }

    method TakeToken(token: bool)
      modifies this
      ensures View() == Tokened(old(View()), token)
    {
      if !token || password == [] {
        password := [];
        passwordSource := Undefined;
        origin, wiped := Nowhere, false;
      }
    }

    method OnInitialize(a: Entry)
      modifies this
      ensures View() == Initialize(old(View()), a)
    {
      TakeToken(a.token);
      remember := stored != [];
      switchUuid := a.uuid;
      salt := None;
      preset := if a.shared then [] else a.password;
      sharedPassword := if a.shared then Some(a.password) else None;
      if preset != [] && a.flag.Some? {
        remember := a.flag.value;
      }
    }

    method FallBack(sha: Sha, g: Greeting, p0: Bytes) returns (p: Bytes)
      modifies this
      ensures View().(password := p) == FellBack(sha, old(View()).(password := p0), g)
      ensures password == old(password)
    {
      p := p0;
      if p == [] {
        p := stored;
        if p != [] {
          passwordSource := Undefined;
          origin, wiped := FromFile(p), false;
        }
      }
      if p == [] && g.personal != [] {
        p := g.personal;
        passwordSource := PersonalAb(g.personal);
        origin, wiped := Personal(g.personal), false;
      }
      if p == [] && g.builtin != [] {
        p := sha(g.builtin, g.salt);
        passwordSource := SharedAb(g.builtin);
        origin, wiped := Shared(g.builtin, g.salt), false;
      }
    }

    /** The last password, else a preset one. */
    method ChoosePreset(sha: Sha, g: Greeting) returns (p: Bytes)
      modifies this
      ensures View().(password := p) == FromPreset(sha, old(View()), g)
      ensures password == old(password)
    {
      p := password;
      if p == [] && preset != [] {
        p := sha(preset, g.salt);
        passwordSource := Undefined;
        origin, wiped := Preset(preset, g.salt), false;
      }
    }

    /** A pending shared password goes before either, and is taken. */
    method ChooseShared(sha: Sha, g: Greeting, p0: Bytes) returns (p: Bytes)
      modifies this
      ensures View().(password := p) == FromShared(sha, old(View()).(password := p0), g)
      ensures password == old(password)
    {
      p := p0;
      var shared := sharedPassword;
      sharedPassword := None;
      if shared.Some? && shared.value != [] {
        p := sha(shared.value, g.salt);
        passwordSource := SharedAb(shared.value);
        origin, wiped := Shared(shared.value, g.salt), false;
      }
    }

    method ChoosePassword(sha: Sha, g: Greeting)
      modifies this
      ensures View() == FellBack(sha, FromShared(sha, FromPreset(sha, old(View()), g), g), g)
    {
      var p := ChoosePreset(sha, g);
      p := ChooseShared(sha, g, p);
      p := FallBack(sha, g, p);
      password := p;
    }

    /** A switch of sides this machine knows of needs no password. */
    method Greet(g: Greeting) returns (switched: bool)
      modifies this
      ensures switched == Switches(old(View()), g)
      ensures View() == if switched then Greeted(old(View()), g).(source := Undefined, wiped := true)
                        else Greeted(old(View()), g)
    {
      salt := Some(g.salt);
      switched := switchUuid && g.trusted;
      switchUuid := false;
      if switched {
        passwordSource := Undefined;
        wiped := true;
      }
    }

    method OnHash(sha: Sha, g: Greeting)
      modifies this
      ensures View() == HandleHash(sha, old(View()), g)
      ensures old(Truthful(sha, View())) ==> Truthful(sha, View())
    {
      if Truthful(sha, View()) {
        HashTruthful(sha, View(), g);
      }
      var switched := Greet(g);
      if !switched {
        ChoosePassword(sha, g);
      }
    }

    method OnLoginError(wrong: bool)
      modifies this
      ensures View() == HandleLoginError(old(View()), wrong)
    {
      if wrong {
        password := [];
        origin := Nowhere;
      }
    }

    method OnLoginFromUi(sha: Sha, typed: Bytes, remember: bool)
      requires salt.Some?
      modifies this
      ensures View() == HandleLoginFromUi(sha, old(View()), typed, remember)
      ensures old(Truthful(sha, View())) ==> Truthful(sha, View())
    {
      if typed == [] {
        if password == [] {
          password := stored;
          if password != [] {
            passwordSource := Undefined;
            origin, wiped := FromFile(password), false;
          }
        }
      } else {
        passwordSource := Undefined;
        password := sha(typed, salt.value);
        origin, wiped := Typed(typed, salt.value), false;
        this.remember := remember;
      }
    }

    method OnPeerInfo(sha: Sha)
      requires salt.Some?
      modifies this
      ensures View() == HandlePeerInfo(sha, old(View()))
      ensures old(Truthful(sha, View()) && origin.Shared? && password != [] && password != stored) ==>
                (stored == password <==> old(Misfiles(sha, View(), PeerInfo)))
    {
      var was := stored;
      if remember {
        if password != [] && password != was && !IsSharedAb(sha, passwordSource, password, salt.value) {
          stored := password;
          storedOrigin := origin;
        }
      } else if IsPersonalAb(passwordSource, password) {
        stored := password;
        storedOrigin := origin;
      } else {
        storedOrigin := Nowhere;
        if was != [] {
          stored := [];
        }
      }
      if stored != [] && !IsSharedAb(sha, passwordSource, password, salt.value)
         && !IsPersonalAb(passwordSource, password) {
        synced := synced + [storedOrigin];
      }
    }

    /** Whatever happens next, the source stays truthful. */
    method Handle(sha: Sha, e: Event)
      requires Truthful(sha, View()) && Possible(View(), e)
      modifies this
      ensures View() == Step(sha, old(View()), e) && Truthful(sha, View())
    {
      StepTruthful(sha, View(), e);
      match e
      case Hash(g) => OnHash(sha, g);
      case Error(wrong) => OnLoginError(wrong);
      case UiLogin(typed, remember) => OnLoginFromUi(sha, typed, remember);
      case PeerInfo => OnPeerInfo(sha);
      case Again(entry) => OnInitialize(entry);
    }
  }

  // Runs

  datatype Event =
    | Hash(greeting: Greeting)
    | Error(wrong: bool)
    | UiLogin(typed: Bytes, remember: bool)
    | PeerInfo
    | Again(entry: Entry)

  /** The UI and the login reply come after the host's hash. */
  predicate Possible(s: Session, e: Event) {
    e.UiLogin? || e.PeerInfo? ==> s.salt.Some?
  }

  function Step(sha: Sha, s: Session, e: Event): Session
    requires Possible(s, e)
  {
    match e
    case Hash(g) => HandleHash(sha, s, g)
    case Error(wrong) => HandleLoginError(s, wrong)
    case UiLogin(typed, remember) => HandleLoginFromUi(sha, s, typed, remember)
    case PeerInfo => HandlePeerInfo(sha, s)
    case Again(entry) => Initialize(s, entry)
  }

  ghost predicate CanRun(sha: Sha, s: Session, es: seq<Event>)
    decreases |es|
  {
    |es| == 0 || (Possible(s, es[0]) && CanRun(sha, Step(sha, s, es[0]), es[1..]))
  }

  ghost function Run(sha: Sha, s: Session, es: seq<Event>): Session
    requires CanRun(sha, s, es)
    decreases |es|
  {
    if |es| == 0 then s else Run(sha, Step(sha, s, es[0]), es[1..])
  }

  /** Before any handler: only what the peer's file holds. */
  function Closed(stored: Bytes, storedOrigin: Origin): Session {
    Session([], Undefined, false, [], None, false, None, stored, Nowhere, false, storedOrigin, [])
  }

  /** The first handler for a peer in whose file nothing shared is. */
  ghost predicate Opening(s: Session) {
    exists stored, origin: Origin, a :: !origin.Shared? && s == Initialize(Closed(stored, origin), a)
  }

  /** The password in use is what its origin stands for, and the source tells the truth about it, unless a
      switch of sides wiped it. */
  predicate Truthful(sha: Sha, s: Session) {
    && s.password == Meant(sha, s.origin)
    && (s.password != [] ==>
          match s.origin
          case Shared(p, _) => s.source == if s.wiped then Undefined else SharedAb(p)
          case Personal(hash) => s.source == if s.wiped then Undefined else PersonalAb(hash)
          case _ => s.source == Undefined)
  }

  lemma FellBackTruthful(sha: Sha, s: Session, g: Greeting)
    requires Truthful(sha, s)
    ensures Truthful(sha, FellBack(sha, s, g))
  {
    assert Truthful(sha, FromStored(s));
    assert Truthful(sha, FromPersonal(FromStored(s), g));
  }

  lemma HashTruthful(sha: Sha, s: Session, g: Greeting)
    requires Truthful(sha, s)
    ensures Truthful(sha, HandleHash(sha, s, g))
  {
    if !Switches(s, g) {
      var s1 := FromPreset(sha, Greeted(s, g), g);
      assert Truthful(sha, s1);
      var s2 := FromShared(sha, s1, g);
      assert Truthful(sha, s2);
      FellBackTruthful(sha, s2, g);
    }
  }

  lemma StepTruthful(sha: Sha, s: Session, e: Event)
    requires Truthful(sha, s) && Possible(s, e)
    ensures Truthful(sha, Step(sha, s, e))
  {
    if e.Hash? {
      HashTruthful(sha, s, e.greeting);
    }
  }

  // Which password is used

  /** The order in which a host's hash looks for a password: a pending shared one, the last one used, a
      preset one, the peer's file, the personal address book, the built-in one. */
  lemma HashOrder(sha: Sha, s: Session, g: Greeting)
    requires !Switches(s, g) && sha(s.preset, g.salt) != [] && sha(g.builtin, g.salt) != []
    requires s.pending.Some? ==> sha(s.pending.value, g.salt) != []
    ensures HandleHash(sha, s, g).origin
         == if s.pending.Some? && s.pending.value != [] then Shared(s.pending.value, g.salt)
            else if s.password != [] then s.origin
            else if s.preset != [] then Preset(s.preset, g.salt)
            else if s.stored != [] then FromFile(s.stored)
            else if g.personal != [] then Personal(g.personal)
            else if g.builtin != [] then Shared(g.builtin, g.salt)
            else s.origin
    ensures HandleHash(sha, s, g).pending == None
  {
  }

  /** What any other event makes the origin of the password in use. Only a text typed, a connection token
      that is missing and a refused password change it. */
  function NextOrigin(s: Session, e: Event): Origin
    requires Possible(s, e) && !(e.Hash? && !Switches(s, e.greeting))
  {
    match e
    case UiLogin(typed, _) =>
      if typed != [] then Typed(typed, s.salt.value)
      else if s.password == [] && s.stored != [] then FromFile(s.stored)
      else s.origin
    case Error(wrong) => if wrong then Nowhere else s.origin
    case Again(entry) => if entry.token && s.password != [] then s.origin else Nowhere
    case _ => s.origin
  }

  /** Whether the password will be remembered: as the user says when typing one, and in a new session as
      the peer's option says for a preset password, else as it was for the last one filed. */
  function NextRemember(s: Session, e: Event): bool {
    match e
    case UiLogin(typed, remember) => if typed != [] then remember else s.remember
    case Again(Entry(password, shared, _, _, flag)) =>
      if !shared && password != [] && flag.Some? then flag.value else s.stored != []
    case _ => s.remember
  }

  lemma OriginExactly(sha: Sha, s: Session, e: Event)
    requires Possible(s, e) && !(e.Hash? && !Switches(s, e.greeting))
    ensures Step(sha, s, e).origin == NextOrigin(s, e)
    ensures Step(sha, s, e).remember == NextRemember(s, e)
  {
  }

  /** Choosing a password leaves what the session was asked for alone. */
  predicate SameWishes(s: Session, s': Session) {
    s'.remember == s.remember && s'.preset == s.preset && s'.uuid == s.uuid && s'.salt == s.salt
  }

  lemma FellBackFrame(sha: Sha, s: Session, g: Greeting)
    ensures SameWishes(s, FellBack(sha, s, g)) && FellBack(sha, s, g).pending == s.pending
  {
  }

  lemma SharedFrame(sha: Sha, s: Session, g: Greeting)
    ensures SameWishes(s, FromShared(sha, s, g)) && FromShared(sha, s, g).pending == None
  {
  }

  /** A session begins with what it was asked for: a shared password pending or a preset one, the switch
      uuid, and no salt. */
  lemma AgainAsks(sha: Sha, s: Session, a: Entry)
    ensures var s' := Step(sha, s, Again(a));
            && (s'.pending, s'.preset) == (if a.shared then (Some(a.password), []) else (None, a.password))
            && s'.uuid == a.uuid && s'.salt == None && SameFile(s, s')
            && (!a.token || s.password == [] ==> s'.password == [] && s'.source == Undefined && !s'.wiped)
  {
  }

  /** A host's hash takes the switch uuid, and the pending password too unless the sides are switched. */
  lemma HashTakes(sha: Sha, s: Session, g: Greeting)
    ensures var s' := HandleHash(sha, s, g);
            && s'.salt == Some(g.salt) && !s'.uuid && s'.preset == s.preset && s'.remember == s.remember
            && s'.pending == (if s.uuid && g.trusted then s.pending else None)
            && (s.uuid && g.trusted ==> s'.password == s.password && s'.wiped)
  {
    var s1 := FromPreset(sha, Greeted(s, g), g);
    SharedFrame(sha, s1, g);
    FellBackFrame(sha, FromShared(sha, s1, g), g);
  }

  // When a shared password is filed

  /** A shared password is about to be filed: the user asked to remember, and it is not recognised any
      more, because a switch of sides wiped its source or the host has another salt by now. */
  predicate Misfiles(sha: Sha, s: Session, e: Event) {
    && e.PeerInfo? && s.salt.Some? && s.origin.Shared? && s.remember
    && s.password != [] && s.password != s.stored
    && (s.wiped || sha(s.origin.password, s.salt.value) != sha(s.origin.password, s.origin.salt))
  }

  ghost predicate Misfiled(sha: Sha, s: Session, es: seq<Event>)
    requires CanRun(sha, s, es)
    decreases |es|
  {
    |es| > 0 && (Misfiles(sha, s, es[0]) || Misfiled(sha, Step(sha, s, es[0]), es[1..]))
  }

  predicate SharedOut(synced: seq<Origin>) {
    exists i :: 0 <= i < |synced| && synced[i].Shared?
  }

  /** What has left is known: a shared password in the file or in the address book was misfiled. */
  predicate Accounted(s: Session, misfiled: bool) {
    (SharedOut(s.synced) <==> misfiled) && (s.storedOrigin.Shared? ==> misfiled)
  }

  lemma SharedOutSnoc(synced: seq<Origin>, o: Origin)
    ensures SharedOut(synced + [o]) <==> SharedOut(synced) || o.Shared?
  {
    if SharedOut(synced) {
      var i :| 0 <= i < |synced| && synced[i].Shared?;
      assert (synced + [o])[i] == synced[i];
    }
    assert (synced + [o])[|synced|] == o;
  }

  lemma PeerInfoAccounts(sha: Sha, s: Session, misfiled: bool)
    requires Truthful(sha, s) && s.salt.Some? && Accounted(s, misfiled)
    ensures Accounted(HandlePeerInfo(sha, s), misfiled || Misfiles(sha, s, PeerInfo))
  {
    SharedOutSnoc(s.synced, s.storedOrigin);
    SharedOutSnoc(s.synced, s.origin);
  }

  predicate SameFile(s: Session, s': Session) {
    s'.stored == s.stored && s'.storedOrigin == s.storedOrigin && s'.synced == s.synced
  }

  lemma FellBackLeavesFile(sha: Sha, s: Session, g: Greeting)
    ensures SameFile(s, FellBack(sha, s, g))
  {
  }

  lemma HashLeavesFile(sha: Sha, s: Session, g: Greeting)
    ensures SameFile(s, HandleHash(sha, s, g))
  {
    FellBackLeavesFile(sha, FromShared(sha, FromPreset(sha, Greeted(s, g), g), g), g);
  }

  lemma StepAccounts(sha: Sha, s: Session, e: Event, misfiled: bool)
    requires Truthful(sha, s) && Possible(s, e) && Accounted(s, misfiled)
    ensures Accounted(Step(sha, s, e), misfiled || Misfiles(sha, s, e))
  {
    match e
    case Hash(g) => HashLeavesFile(sha, s, g);
    case PeerInfo => PeerInfoAccounts(sha, s, misfiled);
    case _ =>
  }

  lemma {:induction false} RunAccounts(sha: Sha, s: Session, es: seq<Event>, misfiled: bool)
    requires Truthful(sha, s) && CanRun(sha, s, es) && Accounted(s, misfiled)
    ensures Truthful(sha, Run(sha, s, es)) && Accounted(Run(sha, s, es), misfiled || Misfiled(sha, s, es))
    decreases |es|
  {
    if |es| > 0 {
      StepTruthful(sha, s, es[0]);
      StepAccounts(sha, s, es[0], misfiled);
      RunAccounts(sha, Step(sha, s, es[0]), es[1..], misfiled || Misfiles(sha, s, es[0]));
    }
  }

  /** Over every run, whatever the salts and the switches of sides: the recorded source is the true one
      unless wiped, and a shared or built-in password reaches the personal address book if and only if
      some login of the run filed it unrecognised. Until then none is in the peer's file. */
  lemma SharedLeavesExactly(sha: Sha, s: Session, es: seq<Event>)
    requires Opening(s) && CanRun(sha, s, es)
    ensures Truthful(sha, Run(sha, s, es))
    ensures SharedOut(Run(sha, s, es).synced) <==> Misfiled(sha, s, es)
    ensures Run(sha, s, es).storedOrigin.Shared? ==> Misfiled(sha, s, es)
  {
    RunAccounts(sha, s, es, false);
  }

  /** After any run, the exact condition for one login: a shared password is newly filed if and only if
      it is remembered, not stored yet, and not recognised any more. */
  lemma FiledExactly(sha: Sha, s: Session, es: seq<Event>)
    requires Opening(s) && CanRun(sha, s, es)
    requires Run(sha, s, es).salt.Some? && Run(sha, s, es).origin.Shared?
    ensures var s' := Run(sha, s, es);
            && (s'.password != [] ==> s'.password == sha(s'.origin.password, s'.origin.salt))
            && (s'.password != [] && s'.password != s'.stored && HandlePeerInfo(sha, s').stored == s'.password
                <==> Misfiles(sha, s', PeerInfo))
  {
    SharedLeavesExactly(sha, s, es);
  }

  /** The source still tells that the password is a shared one, or the personal address book's. */
  predicate KnownShared(sha: Sha, s: Session)
    requires s.salt.Some?
  {
    && s.origin.Shared? && !s.wiped && s.password != []
    && sha(s.origin.password, s.salt.value) == sha(s.origin.password, s.origin.salt)
  }

  predicate KnownPersonal(s: Session) {
    s.origin.Personal? && !s.wiped && s.password != []
  }

  /** What a login leaves in the peer's file: if remembered, the password in use unless there is none or it
      is known to be shared; if not, the personal address book's and else nothing. */
  function Filed(sha: Sha, s: Session): Bytes
    requires s.salt.Some?
  {
    if s.remember then
      if Meant(sha, s.origin) == [] || KnownShared(sha, s) then s.stored else Meant(sha, s.origin)
    else if KnownPersonal(s) then s.origin.hash else []
  }

  lemma KnownByTruth(sha: Sha, s: Session)
    requires Truthful(sha, s) && s.salt.Some?
    ensures IsSharedAb(sha, s.source, s.password, s.salt.value) <==> KnownShared(sha, s)
    ensures IsPersonalAb(s.source, s.password) <==> KnownPersonal(s)
  {
  }

  lemma PeerInfoFiles(sha: Sha, s: Session)
    requires Truthful(sha, s) && s.salt.Some?
    ensures var s' := HandlePeerInfo(sha, s);
            && s'.stored == Filed(sha, s)
            && s'.storedOrigin == (if s'.stored == s.stored && s.remember then s.storedOrigin
                                   else if s.remember || KnownPersonal(s) then s.origin else Nowhere)
            && s'.synced == s.synced + (if s'.stored != [] && !KnownShared(sha, s) && !KnownPersonal(s)
                                        then [s'.storedOrigin] else [])
            && s' == s.(stored := s'.stored, storedOrigin := s'.storedOrigin, synced := s'.synced)
  {
    KnownByTruth(sha, s);
  }

  /** After any run, a login leaves in the file exactly what its origins say, reports it to the personal
      address book unless it is known to be shared or to come from there, and changes nothing else. */
  lemma FileAfterLogin(sha: Sha, s: Session, es: seq<Event>)
    requires Opening(s) && CanRun(sha, s, es) && Run(sha, s, es).salt.Some?
    ensures var s0 := Run(sha, s, es);
            var s' := HandlePeerInfo(sha, s0);
            && s0.password == Meant(sha, s0.origin)
            && s'.stored == Filed(sha, s0)
            && (s'.synced != s0.synced <==> s'.stored != [] && !KnownShared(sha, s0) && !KnownPersonal(s0))
            && (s'.synced != s0.synced ==> s'.synced == s0.synced + [s'.storedOrigin])
            && s' == s0.(stored := s'.stored, storedOrigin := s'.storedOrigin, synced := s'.synced)
  {
    SharedLeavesExactly(sha, s, es);
    PeerInfoFiles(sha, Run(sha, s, es));
  }

  // Runs that misfile nothing

  /** The host keeps its salt, and this machine knows of no switch of sides. */
  predicate Steady(es: seq<Event>, salt: Bytes) {
    forall i :: 0 <= i < |es| && es[i].Hash? ==> es[i].greeting.salt == salt && !es[i].greeting.trusted
  }

  predicate Fixed(s: Session, salt: Bytes) {
    && !s.wiped && (s.salt.Some? ==> s.salt.value == salt)
    && (s.origin.Shared? ==> s.origin.salt == salt)
  }

  lemma HashFixed(sha: Sha, s: Session, g: Greeting, salt: Bytes)
    requires Fixed(s, salt) && g.salt == salt && !g.trusted
    ensures Fixed(HandleHash(sha, s, g), salt)
  {
    var s1 := FromPreset(sha, Greeted(s, g), g);
    assert Fixed(s1, salt);
    assert Fixed(FromShared(sha, s1, g), salt);
  }

  lemma StepFixed(sha: Sha, s: Session, e: Event, salt: Bytes)
    requires Fixed(s, salt) && Possible(s, e) && Steady([e], salt)
    ensures Fixed(Step(sha, s, e), salt) && !Misfiles(sha, s, e)
  {
    assert [e][0] == e;
    if e.Hash? {
      HashFixed(sha, s, e.greeting, salt);
    }
  }

  /** With one salt and no switch of sides no shared password is ever filed or synchronised. */
  lemma {:induction false} SteadyNeverMisfiles(sha: Sha, s: Session, es: seq<Event>, salt: Bytes)
    requires Fixed(s, salt) && CanRun(sha, s, es) && Steady(es, salt)
    ensures !Misfiled(sha, s, es)
    decreases |es|
  {
    if |es| > 0 {
      assert Steady([es[0]], salt);
      StepFixed(sha, s, es[0], salt);
      SteadyNeverMisfiles(sha, Step(sha, s, es[0]), es[1..], salt);
    }
  }

  lemma SharedStaysShared(sha: Sha, s: Session, es: seq<Event>, salt: Bytes)
    requires Opening(s) && CanRun(sha, s, es) && Steady(es, salt)
    ensures !SharedOut(Run(sha, s, es).synced) && !Run(sha, s, es).storedOrigin.Shared?
  {
    SteadyNeverMisfiles(sha, s, es, salt);
    SharedLeavesExactly(sha, s, es);
  }

  // Sessions asked for as they are: a switch uuid never together with a connection token

  predicate Apart(es: seq<Event>) {
    forall i :: 0 <= i < |es| && es[i].Again? ==> !(es[i].entry.token && es[i].entry.uuid)
  }

  /** A switch of sides only ever meets a handler without a password. */
  predicate Unwiped(s: Session) {
    (s.uuid ==> s.salt.None? && s.password == []) && (s.wiped ==> s.password == [])
  }

  lemma StepUnwiped(sha: Sha, s: Session, e: Event)
    requires Unwiped(s) && Possible(s, e) && Apart([e])
    ensures Unwiped(Step(sha, s, e))
  {
    assert [e][0] == e;
    if e.Hash? {
      HashUnwiped(sha, s, e.greeting);
    }
  }

  lemma HashUnwiped(sha: Sha, s: Session, g: Greeting)
    requires Unwiped(s)
    ensures Unwiped(HandleHash(sha, s, g))
  {
    if !Switches(s, g) {
      var s1 := FromPreset(sha, Greeted(s, g), g);
      assert Unwiped(s1);
      assert Unwiped(FromShared(sha, s1, g));
    }
  }

  lemma {:induction false} RunUnwiped(sha: Sha, s: Session, es: seq<Event>)
    requires Unwiped(s) && CanRun(sha, s, es) && Apart(es)
    ensures Unwiped(Run(sha, s, es))
    decreases |es|
  {
    if |es| > 0 {
      assert Apart([es[0]]);
      StepUnwiped(sha, s, es[0]);
      RunUnwiped(sha, Step(sha, s, es[0]), es[1..]);
    }
  }

  /** Then a login files a shared password only if the host's salt has changed. */
  lemma OnlyAnotherSalt(sha: Sha, s: Session, es: seq<Event>)
    requires Opening(s) && CanRun(sha, s, es) && Apart(es)
    ensures var s' := Run(sha, s, es);
            Misfiles(sha, s', PeerInfo) ==>
              !s'.wiped && sha(s'.origin.password, s'.salt.value) != s'.password
  {
    RunUnwiped(sha, s, es);
    SharedLeavesExactly(sha, s, es);
  }

  // Runs that misfile

  lemma {:induction false} RunFirst(sha: Sha, s: Session, e: Event, es: seq<Event>)
    requires Possible(s, e) && CanRun(sha, Step(sha, s, e), es)
    ensures CanRun(sha, s, [e] + es) && Run(sha, s, [e] + es) == Run(sha, Step(sha, s, e), es)
  {
    assert ([e] + es)[1..] == es;
  }

  /** A peer with a stored password is opened with the shared password `p`. */
  function Shared0(stored: Bytes, p: Bytes): Session {
    Initialize(Closed(stored, FromFile(stored)), Entry(p, true, false, false, None))
  }

  /** The connection is made twice, the host has another salt the second time. */
  function TwoSalts(first: Greeting, second: Greeting): seq<Event> {
    [Hash(first)] + ([Hash(second)] + ([PeerInfo] + []))
  }

  lemma SaltFilesShared(sha: Sha, stored: Bytes, p: Bytes, first: Greeting, second: Greeting)
    requires stored != [] && p != [] && sha(p, first.salt) != [] && sha(p, first.salt) != stored
    requires sha(p, second.salt) != sha(p, first.salt)
    ensures Opening(Shared0(stored, p)) && CanRun(sha, Shared0(stored, p), TwoSalts(first, second))
    ensures var s' := Run(sha, Shared0(stored, p), TwoSalts(first, second));
            s'.stored == sha(p, first.salt) && s'.storedOrigin == Shared(p, first.salt) && SharedOut(s'.synced)
  {
    var s := Shared0(stored, p);
    var s1 := HandleHash(sha, s, first);
    assert s1.password == sha(p, first.salt) && s1.source == SharedAb(p) && s1.origin == Shared(p, first.salt);
    var s2 := HandleHash(sha, s1, second);
    assert s2 == s1.(salt := Some(second.salt));
    RunFirst(sha, s2, PeerInfo, []);
    RunFirst(sha, s1, Hash(second), [PeerInfo] + []);
    RunFirst(sha, s, Hash(first), [Hash(second)] + ([PeerInfo] + []));
    SharedOutSnoc(s.synced, Shared(p, first.salt));
  }

  /** The peer is opened again with the connection token and a switch uuid at once. */
  function SwitchedSides(first: Greeting, second: Greeting): seq<Event> {
    [Hash(first)] + ([Again(Entry([], false, true, true, None))] + ([Hash(second)] + ([PeerInfo] + [])))
  }

  lemma SwitchFilesShared(sha: Sha, stored: Bytes, p: Bytes, first: Greeting, second: Greeting)
    requires stored != [] && p != [] && sha(p, first.salt) != [] && sha(p, first.salt) != stored
    requires second.trusted
    ensures Opening(Shared0(stored, p)) && CanRun(sha, Shared0(stored, p), SwitchedSides(first, second))
    ensures var s' := Run(sha, Shared0(stored, p), SwitchedSides(first, second));
            s'.stored == sha(p, first.salt) && s'.storedOrigin == Shared(p, first.salt) && SharedOut(s'.synced)
  {
    var s := Shared0(stored, p);
    var s1 := HandleHash(sha, s, first);
    assert s1.password == sha(p, first.salt) && s1.source == SharedAb(p) && s1.origin == Shared(p, first.salt);
    var a := Entry([], false, true, true, None);
    var s2 := Initialize(s1, a);
    var s3 := HandleHash(sha, s2, second);
    RunFirst(sha, s3, PeerInfo, []);
    RunFirst(sha, s2, Hash(second), [PeerInfo] + []);
    RunFirst(sha, s1, Again(a), [Hash(second)] + ([PeerInfo] + []));
    RunFirst(sha, s, Hash(first), [Again(a)] + ([Hash(second)] + ([PeerInfo] + [])));
    SharedOutSnoc(s.synced, Shared(p, first.salt));
  }
}
