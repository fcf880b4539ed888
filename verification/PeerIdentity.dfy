/** Filing one computer's identity under the other addresses it advertises. A peer file belongs to
    an address; the identity in it says which machine that address is. */
module PeerIdentity {
  import opened Common

  datatype Info = Info(username: string, hostname: string, platform: string, machineId: string)

  const NoInfo := Info("", "", "", "")

  /** A peer's file: its identity, its password, and everything else. */
  datatype PeerFile = PeerFile(info: Info, password: seq<Byte>, rest: map<string, string>)

  const NewFile := PeerFile(NoInfo, [], map[])

  type Files = map<string, PeerFile>

  function Load(files: Files, a: string): PeerFile {
    if a in files then files[a] else NewFile
  }

  predicate Complete(info: Info) {
    info.machineId != "" && info.platform != ""
  }

  /** An address is free for an identity unless it is known to be another machine's. */
  predicate Free(files: Files, a: string, info: Info) {
    var id := Load(files, a).info.machineId;
    id == "" || id == info.machineId
  }

  /** The files afterwards, address by address; the order and repetitions of the addresses do not
      matter. */
  function Identified(files: Files, addrs: set<string>, info: Info): Files {
    map a | a in files.Keys + addrs && (a in files || (Complete(info) && Free(files, a, info))) ::
      if a in addrs && Complete(info) && Free(files, a, info) then Load(files, a).(info := info)
      else Load(files, a)
  }

  function AsSet(addrs: seq<string>): set<string> {
    set a | a in addrs
  }

  lemma IdentifiedOne(files: Files, addrs: set<string>, a: string, info: Info)
    requires Complete(info)
    ensures Identified(files, addrs + {a}, info)
         == if Free(files, a, info) then Identified(files, addrs, info)[a := Load(files, a).(info := info)]
            else Identified(files, addrs, info)
  {
  }

  lemma LoadIdentified(files: Files, addrs: set<string>, a: string, info: Info)
    requires Complete(info)
    ensures Load(Identified(files, addrs, info), a)
         == if a in addrs && Free(files, a, info) then Load(files, a).(info := info) else Load(files, a)
  {
  }

  /** A named address that is nobody's yet, or this machine's, gets the whole identity and keeps the rest of
      its file; an address known to be another machine's, or not named, keeps its file, and an incomplete
      identity goes nowhere. */
  lemma SpreadReaches(files: Files, addrs: set<string>, a: string, info: Info)
    ensures var files' := Identified(files, addrs, info);
            var known := if a in files then files[a].info.machineId else "";
            if a in addrs && info.machineId != "" && info.platform != "" && known in {"", info.machineId} then
              && a in files' && files'[a].info == info
              && (if a in files then files'[a] == files[a].(info := info)
                  else files'[a].password == [] && files'[a].rest == map[])
            else
              && (a in files' <==> a in files) && (a in files ==> files'[a] == files[a])
  {
  }

  /** A file the identity would change. */
  predicate Moves(files: Files, a: string, info: Info) {
    Free(files, a, info) && Load(files, a).info != info
  }

  lemma UnchangedWhen(files: Files, addrs: set<string>, info: Info)
    requires Complete(info)
    ensures Identified(files, addrs, info) == files <==> forall a :: a in addrs ==> !Moves(files, a, info)
  {
    if forall a :: a in addrs ==> !Moves(files, a, info) {
      forall a | a in Identified(files, addrs, info)
        ensures a in files && Identified(files, addrs, info)[a] == files[a]
      {
        assert a in addrs ==> !Moves(files, a, info);
      }
    } else {
      var a :| a in addrs && Moves(files, a, info);
      LoadIdentified(files, addrs, a, info);
    }
  }

  class PeerStore {
    var files: Files

    /** The loop over the advertised addresses, storing one file at a time. */
    method SpreadIdentity(info: Info, addrs: seq<string>) returns (written: nat)
      modifies this
      ensures files == Identified(old(files), AsSet(addrs), info)
      ensures info.machineId != "" && info.platform != "" ==>
                forall a :: a in addrs && Load(old(files), a).info.machineId in {"", info.machineId} ==>
                  a in files && files[a].info == info
      ensures written == 0 <==> files == old(files)
    {
      written := 0;
      ghost var was := files;
      assert Identified(was, {}, info) == was;
      if info.machineId == "" || info.platform == "" {
        assert Identified(was, AsSet(addrs), info) == was;
        return;
      }
      for i := 0 to |addrs|
        invariant files == Identified(was, AsSet(addrs[..i]), info)
        invariant written == 0 <==> forall a :: a in AsSet(addrs[..i]) ==> !Moves(was, a, info)
      {
        var a := addrs[i];
        assert AsSet(addrs[..i + 1]) == AsSet(addrs[..i]) + {a};
        IdentifiedOne(was, AsSet(addrs[..i]), a, info);
        LoadIdentified(was, AsSet(addrs[..i]), a, info);
        var c := if a in files then files[a] else NewFile;
        if c.info == info {
          assert files[a := c] == files;
        } else if c.info.machineId != "" && c.info.machineId != info.machineId {
          // belongs to another machine
        } else {
          files := files[a := c.(info := info)];
          written := written + 1;
        }
      }
      assert addrs[..|addrs|] == addrs;
      UnchangedWhen(was, AsSet(addrs), info);
    }
  }

  // Sequences of logins

  /** A login at an address: the host's identity, the addresses it names, the password now filed. */
  datatype Login = Login(at: string, info: Info, addrs: seq<string>, password: seq<Byte>)

  /** The address's own file is rewritten, then the identity is spread. */
  function LoggedIn(files: Files, l: Login): Files {
    Identified(files[l.at := Load(files, l.at).(info := l.info, password := l.password)],
               AsSet(l.addrs), l.info)
  }

  function AllLoggedIn(files: Files, ls: seq<Login>): Files {
    if |ls| == 0 then files else LoggedIn(AllLoggedIn(files, ls[..|ls| - 1]), ls[|ls| - 1])
  }

  /** What a login elsewhere may do to a file: nothing but fill in or refresh the identity of the same
      machine. */
  predicate SameOwner(before: PeerFile, after: PeerFile) {
    && after.password == before.password && after.rest == before.rest
    && (before.info.machineId != "" ==> after.info.machineId == before.info.machineId)
    && (after.info != before.info ==> Complete(after.info))
  }

  /** A login leaves the host's identity and the password in the address's own file, and the identity at
      every other address it names that is not known to be another machine's. */
  lemma LoginFiles(files: Files, l: Login, a: string)
    ensures var own := Load(LoggedIn(files, l), l.at);
            own.info == l.info && own.password == l.password && own.rest == Load(files, l.at).rest
    ensures l.info.machineId != "" && l.info.platform != "" && a in l.addrs && a != l.at
            && Load(files, a).info.machineId in {"", l.info.machineId} ==>
              Load(LoggedIn(files, l), a) == Load(files, a).(info := l.info)
  {
    var own := files[l.at := Load(files, l.at).(info := l.info, password := l.password)];
    SpreadReaches(own, AsSet(l.addrs), l.at, l.info);
    SpreadReaches(own, AsSet(l.addrs), a, l.info);
  }

  lemma LoginElsewhere(files: Files, l: Login, a: string)
    requires l.at != a
    ensures SameOwner(Load(files, a), Load(LoggedIn(files, l), a))
    ensures a in files ==> a in LoggedIn(files, l)
  {
    var own := files[l.at := Load(files, l.at).(info := l.info, password := l.password)];
    if Complete(l.info) {
      LoadIdentified(own, AsSet(l.addrs), a, l.info);
    }
  }

  /** Over every sequence of logins at other addresses a file keeps its password and everything but
      its identity, and once it is known to be a machine's it stays that machine's. */
  lemma {:induction false} LoginsElsewhere(files: Files, ls: seq<Login>, a: string)
    requires forall i :: 0 <= i < |ls| ==> ls[i].at != a
    ensures SameOwner(Load(files, a), Load(AllLoggedIn(files, ls), a))
    ensures a in files ==> a in AllLoggedIn(files, ls)
  {
    if |ls| > 0 {
      var n := |ls| - 1;
      LoginsElsewhere(files, ls[..n], a);
      LoginElsewhere(AllLoggedIn(files, ls[..n]), ls[n], a);
    }
  }

  /** Spreading an identity again changes nothing, so nothing is written. */
  lemma SpreadTwice(files: Files, addrs: set<string>, info: Info)
    ensures var once := Identified(files, addrs, info); Identified(once, addrs, info) == once
  {
    var once := Identified(files, addrs, info);
    if Complete(info) {
      forall a | a in addrs ensures !Moves(once, a, info) {
        LoadIdentified(files, addrs, a, info);
      }
      UnchangedWhen(once, addrs, info);
    }
  }
}
