/** The bridge's in-memory entity indexes and their persistence logic: loading
    a saved collection into the indexes without replacing live wrappers,
    taking snapshots of the indexes, one step of the periodic save loop, and
    the resume cursor.

    The file and codec work is not modelled: what `load` read, whether `save`
    or a cursor write failed, and what reading the cursor file gave are
    parameters of the methods. */
module Bridge {
  import opened Wrappers
  import opened Types
  import Database
  import opened Reconcile

  /** The live wrapper of a user record. Other parts of the bridge keep
      references to it, so reloading must update it rather than replace it. */
  class User {
    var user: Database.User

    /** NewUser: a fresh wrapper embedding `dbUser`. */
    constructor (dbUser: Database.User)
      ensures user == dbUser
    {
      user := dbUser;
    }
  }

  /** The live wrapper of a portal record. */
  class Portal {
    var portal: Database.Portal

    /** NewPortal: a fresh wrapper embedding `dbPortal`. */
    constructor (dbPortal: Database.Portal)
      ensures portal == dbPortal
    {
      portal := dbPortal;
    }
  }

  /** The live wrapper of a puppet record. */
  class Puppet {
    var puppet: Database.Puppet

    /** NewPuppet: a fresh wrapper embedding `dbPuppet`. */
    constructor (dbPuppet: Database.Puppet)
      ensures puppet == dbPuppet
    {
      puppet := dbPuppet;
    }
  }

  // The primary and secondary keys of each collection.
  function UserMXID(u: Database.User): MatrixUserID { u.mxid }
  function UserJID(u: Database.User): WhatsAppID { u.jid }
  function PortalKeyOf(p: Database.Portal): Database.PortalKey { p.key }
  function PortalMXID(p: Database.Portal): MatrixRoomID { p.mxid }
  function PuppetJID(p: Database.Puppet): WhatsAppID { p.jid }
  function PuppetCustomMXID(p: Database.Puppet): MatrixUserID { p.customMXID }

  /** What reading the cursor file gave. */
  datatype ReadOutcome = Contents(data: string) | Missing | ReadFailed(error: Error)

  /** What one save-loop tick can write. */
  datatype Target = Users | Portals | Puppets | NextBatch

  /** A write handed to the file layer, with what it writes. */
  datatype Write =
    | UsersSnapshot(users: seq<Database.User>)
    | PortalsSnapshot(portals: seq<Database.Portal>)
    | PuppetsSnapshot(puppets: seq<Database.Puppet>)
    | NextBatchToken(token: string)
  {
    function Target(): Target {
      match this
      case UsersSnapshot(_) => Users
      case PortalsSnapshot(_) => Portals
      case PuppetsSnapshot(_) => Puppets
      case NextBatchToken(_) => NextBatch
    }
  }

  function Targets(writes: seq<Write>): seq<Target> {
    seq(|writes|, n requires 0 <= n < |writes| => writes[n].Target())
  }

  /** The position of each target in a tick. */
  function Rank(t: Target): nat {
    match t
    case Users => 0
    case Portals => 1
    case Puppets => 2
    case NextBatch => 3
  }

  /** The writes one tick makes: each dirty collection, then the cursor when
      it moved. Each target at most once, in a fixed order; nothing depends on
      how an earlier write went. */
  function TickPlan(usersChanged: bool, portalsChanged: bool, puppetsChanged: bool, nextBatchMoved: bool): (plan: seq<Target>)
    ensures Users in plan <==> usersChanged
    ensures Portals in plan <==> portalsChanged
    ensures Puppets in plan <==> puppetsChanged
    ensures NextBatch in plan <==> nextBatchMoved
    ensures forall n, m :: 0 <= n < m < |plan| ==> Rank(plan[n]) < Rank(plan[m])
  {
    (if usersChanged then [Users] else [])
    + (if portalsChanged then [Portals] else [])
    + (if puppetsChanged then [Puppets] else [])
    + (if nextBatchMoved then [NextBatch] else [])
  }

  /** `plan`, followed by `t` when `b` holds. */
  function Then(plan: seq<Target>, b: bool, t: Target): seq<Target> {
    if b then plan + [t] else plan
  }

  /** The plan of a tick, one decision at a time. */
  lemma TickPlanInSteps(u: bool, p: bool, q: bool, n: bool)
    ensures TickPlan(u, p, q, n) == Then(Then(Then(Then([], u, Users), p, Portals), q, Puppets), n, NextBatch)
  {
  }

  lemma TargetsSnoc(writes: seq<Write>, w: Write)
    ensures Targets(writes + [w]) == Targets(writes) + [w.Target()]
  {
    assert |Targets(writes + [w])| == |Targets(writes) + [w.Target()]|;
    forall n | 0 <= n < |writes| + 1
      ensures Targets(writes + [w])[n] == (Targets(writes) + [w.Target()])[n]
    {
      if n < |writes| {
        assert (writes + [w])[n] == writes[n];
      }
    }
  }

  /** What LoadNextBatch leaves in the cursor and returns. */
  function ReadCursor(read: ReadOutcome): (r: (string, Option<Error>))
    ensures read.Contents? ==> r.0 == read.data
    ensures !read.Contents? ==> r.0 == ""
    ensures r.1.Some? <==> read.ReadFailed?
    ensures read.ReadFailed? ==> r.1 == Some(read.error)
  {
    match read
    case Contents(dat) => (dat, None)
    case Missing => ("", None)
    case ReadFailed(e) => ("", Some(e))
  }

  /** A user indexed under JID "j1" and reloaded with an empty JID keeps the
      "j1" entry, although the record the wrapper now embeds has no JID. */
  lemma StaleUserJID()
    ensures var stored := Database.User("@a:x", "j1", "", None, 0, []);
      var reloaded := Database.User("@a:x", "", "", None, 0, []);
      var after := Merge(Index(map["@a:x" := stored], map["j1" := "@a:x"]), [reloaded], UserMXID, UserJID);
      after.primary["@a:x"] == reloaded && reloaded.jid == ""
      && "j1" in after.secondary && after.secondary["j1"] == "@a:x"
  {
    var stored := Database.User("@a:x", "j1", "", None, 0, []);
    var reloaded := Database.User("@a:x", "", "", None, 0, []);
    var ix := Index(map["@a:x" := stored], map["j1" := "@a:x"]);
    assert [reloaded][..0] == [];
    StaleSecondary(ix, reloaded, UserMXID, UserJID, "j1");
  }

  /** `w` writes what the indexes and the cursor hold: a snapshot of the
      collection it saves, or the current cursor. */
  ghost predicate WriteOf(w: Write, users: Index<MatrixUserID, Database.User>,
                          portals: Index<Database.PortalKey, Database.Portal>,
                          puppets: Index<WhatsAppID, Database.Puppet>, nextBatch: string)
  {
    match w
    case UsersSnapshot(s) => IsSnapshot(s, users.primary, UserMXID)
    case PortalsSnapshot(s) => IsSnapshot(s, portals.primary, PortalKeyOf)
    case PuppetsSnapshot(s) => IsSnapshot(s, puppets.primary, PuppetJID)
    case NextBatchToken(t) => t == nextBatch
  }

  ghost predicate WritesOf(writes: seq<Write>, users: Index<MatrixUserID, Database.User>,
                           portals: Index<Database.PortalKey, Database.Portal>,
                           puppets: Index<WhatsAppID, Database.Puppet>, nextBatch: string)
  {
    forall w :: w in writes ==> WriteOf(w, users, portals, puppets, nextBatch)
  }

  lemma WritesOfSnoc(writes: seq<Write>, w: Write, users: Index<MatrixUserID, Database.User>,
                     portals: Index<Database.PortalKey, Database.Portal>,
                     puppets: Index<WhatsAppID, Database.Puppet>, nextBatch: string)
    requires WritesOf(writes, users, portals, puppets, nextBatch)
    requires WriteOf(w, users, portals, puppets, nextBatch)
    ensures WritesOf(writes + [w], users, portals, puppets, nextBatch)
  {
  }

  class Bridge {
    var usersByMXID: map<MatrixUserID, User>
    var usersByJID: map<WhatsAppID, User>
    var portalsByJID: map<Database.PortalKey, Portal>
    var portalsByMXID: map<MatrixRoomID, Portal>
    var puppets: map<WhatsAppID, Puppet>
    var puppetsByCustomMXID: map<MatrixUserID, Puppet>

    /** Dirty flags, set by the bridging logic and cleared by the save loop. */
    var usersChanged: bool
    var portalsChanged: bool
    var puppetsChanged: bool

    /** AS.Sync.NextBatch: the resume cursor of the Matrix sync stream. */
    var nextBatch: string

    /** The value of each index: for each primary key the record its wrapper
        embeds, and for each secondary key the primary key of the wrapper it
        points at. */
    ghost var userIndex: Index<MatrixUserID, Database.User>
    ghost var portalIndex: Index<Database.PortalKey, Database.Portal>
    ghost var puppetIndex: Index<WhatsAppID, Database.Puppet>

    /** Each wrapper sits under its own record's key, each secondary entry
        points at the wrapper indexed under that record's primary key, and
        `userIndex` is the value of the two maps. */
    ghost predicate UsersValid()
      reads this`usersByMXID, this`usersByJID, this`userIndex, usersByMXID.Values, usersByJID.Values
    {
      && usersByMXID.Keys == userIndex.primary.Keys
      && (forall k :: k in usersByMXID ==> usersByMXID[k].user == userIndex.primary[k] && usersByMXID[k].user.mxid == k)
      && usersByJID.Keys == userIndex.secondary.Keys
      && (forall s :: s in usersByJID ==> userIndex.secondary[s] in usersByMXID && usersByMXID[userIndex.secondary[s]] == usersByJID[s])
    }

    ghost predicate PortalsValid()
      reads this`portalsByJID, this`portalsByMXID, this`portalIndex, portalsByJID.Values, portalsByMXID.Values
    {
      && portalsByJID.Keys == portalIndex.primary.Keys
      && (forall k :: k in portalsByJID ==> portalsByJID[k].portal == portalIndex.primary[k] && portalsByJID[k].portal.key == k)
      && portalsByMXID.Keys == portalIndex.secondary.Keys
      && (forall s :: s in portalsByMXID ==> portalIndex.secondary[s] in portalsByJID && portalsByJID[portalIndex.secondary[s]] == portalsByMXID[s])
    }

    ghost predicate PuppetsValid()
      reads this`puppets, this`puppetsByCustomMXID, this`puppetIndex, puppets.Values, puppetsByCustomMXID.Values
    {
      && puppets.Keys == puppetIndex.primary.Keys
      && (forall k :: k in puppets ==> puppets[k].puppet == puppetIndex.primary[k] && puppets[k].puppet.jid == k)
      && puppetsByCustomMXID.Keys == puppetIndex.secondary.Keys
      && (forall s :: s in puppetsByCustomMXID ==> puppetIndex.secondary[s] in puppets && puppets[puppetIndex.secondary[s]] == puppetsByCustomMXID[s])
    }

    ghost predicate Valid()
      reads this`usersByMXID, this`usersByJID, this`userIndex, usersByMXID.Values, usersByJID.Values
      reads this`portalsByJID, this`portalsByMXID, this`portalIndex, portalsByJID.Values, portalsByMXID.Values
      reads this`puppets, this`puppetsByCustomMXID, this`puppetIndex, puppets.Values, puppetsByCustomMXID.Values
    {
      UsersValid() && PortalsValid() && PuppetsValid()
    }

    /** A bridge with empty indexes, clean flags and no cursor. */
    constructor ()
      ensures Valid()
      ensures usersByMXID == map[] && usersByJID == map[]
      ensures portalsByJID == map[] && portalsByMXID == map[]
      ensures puppets == map[] && puppetsByCustomMXID == map[]
      ensures !usersChanged && !portalsChanged && !puppetsChanged
      ensures nextBatch == ""
    {
      usersByMXID, usersByJID := map[], map[];
      portalsByJID, portalsByMXID := map[], map[];
      puppets, puppetsByCustomMXID := map[], map[];
      usersChanged, portalsChanged, puppetsChanged := false, false, false;
      nextBatch := "";
      userIndex, portalIndex, puppetIndex := Index(map[], map[]), Index(map[], map[]), Index(map[], map[]);
    }

    /** LoadNextBatch: the cursor becomes the file's contents; when reading
        fails for any reason it becomes empty, and the error is returned
        unless the file is simply missing. */
    method LoadNextBatch(read: ReadOutcome) returns (err: Option<Error>)
      modifies this`nextBatch
      ensures (nextBatch, err) == ReadCursor(read)
    {
      match read {
        case Contents(dat) =>
          nextBatch := dat;
          err := None;
        case Missing =>
          nextBatch := "";
          err := None;
        case ReadFailed(e) =>
          nextBatch := "";
          err := Some(e);
      }
    }

    /** SaveNextBatch: write the cursor to its file; `written` is how the
        write went. */
    method SaveNextBatch(written: Option<Error>) returns (w: Write, err: Option<Error>)
      ensures w == NextBatchToken(nextBatch) && err == written
    {
      w := NextBatchToken(nextBatch);
      err := written;
    }

    /** The collection half of a tick: each collection whose dirty flag
        is set is saved, in the order users, portals, puppets, whatever the
        earlier saves returned. */
    method SaveChanged(usersSaved: Option<Error>, portalsSaved: Option<Error>, puppetsSaved: Option<Error>)
      returns (writes: seq<Write>)
      requires Valid()
      ensures Targets(writes) == TickPlan(usersChanged, portalsChanged, puppetsChanged, false)
      ensures WritesOf(writes, userIndex, portalIndex, puppetIndex, nextBatch)
    {
      writes := [];
      ghost var plan: seq<Target> := [];
      if usersChanged {
        var data, err := SaveUsers(usersSaved);
        TargetsSnoc(writes, UsersSnapshot(data));
        WritesOfSnoc(writes, UsersSnapshot(data), userIndex, portalIndex, puppetIndex, nextBatch);
        writes := writes + [UsersSnapshot(data)];
      }
      plan := Then(plan, usersChanged, Users);
      assert Targets(writes) == plan;
      if portalsChanged {
        var data, err := SavePortals(portalsSaved);
        TargetsSnoc(writes, PortalsSnapshot(data));
        WritesOfSnoc(writes, PortalsSnapshot(data), userIndex, portalIndex, puppetIndex, nextBatch);
        writes := writes + [PortalsSnapshot(data)];
      }
      plan := Then(plan, portalsChanged, Portals);
      assert Targets(writes) == plan;
      if puppetsChanged {
        var data, err := SavePuppets(puppetsSaved);
        TargetsSnoc(writes, PuppetsSnapshot(data));
        WritesOfSnoc(writes, PuppetsSnapshot(data), userIndex, portalIndex, puppetIndex, nextBatch);
        writes := writes + [PuppetsSnapshot(data)];
      }
      plan := Then(plan, puppetsChanged, Puppets);
      assert Targets(writes) == plan;
      TickPlanInSteps(usersChanged, portalsChanged, puppetsChanged, false);
    }

    /** One tick of SaveLoop. Each collection whose dirty flag is set is
        saved and all three flags are cleared, whatever the saves returned;
        the cursor is written when it differs from `prevNextBatch`, the value
        last written, which then becomes the current cursor. Failures are
        only logged, so they change neither the later writes nor the state.
        The outcomes of the four writes are parameters. */
    method SaveTick(prevNextBatch: string, usersSaved: Option<Error>, portalsSaved: Option<Error>,
                    puppetsSaved: Option<Error>, nextBatchWritten: Option<Error>)
      returns (newPrevNextBatch: string, writes: seq<Write>)
      requires Valid()
      modifies this`usersChanged, this`portalsChanged, this`puppetsChanged
      ensures !usersChanged && !portalsChanged && !puppetsChanged
      ensures newPrevNextBatch == nextBatch
      ensures Targets(writes) ==
        TickPlan(old(usersChanged), old(portalsChanged), old(puppetsChanged), prevNextBatch != nextBatch)
      ensures WritesOf(writes, userIndex, portalIndex, puppetIndex, nextBatch)
    {
      writes := SaveChanged(usersSaved, portalsSaved, puppetsSaved);
      ghost var u, p, q := usersChanged, portalsChanged, puppetsChanged;
      usersChanged, portalsChanged, puppetsChanged := false, false, false;
      newPrevNextBatch := prevNextBatch;
      TickPlanInSteps(u, p, q, false);
      if prevNextBatch != nextBatch {
        var w, err := SaveNextBatch(nextBatchWritten);
        TargetsSnoc(writes, w);
        WritesOfSnoc(writes, w, userIndex, portalIndex, puppetIndex, nextBatch);
        writes := writes + [w];
        newPrevNextBatch := nextBatch;
      }
      TickPlanInSteps(u, p, q, prevNextBatch != nextBatch);
    }

    /** LoadUsers: merge the users that `load` read (or return its error,
        changing nothing). A user already indexed keeps its wrapper, which
        gets the loaded record; a new one gets a fresh wrapper, indexed by
        JID too when it has one. */
    method LoadUsers(loaded: Result<seq<Database.User>, Error>) returns (err: Option<Error>)
      requires UsersValid()
      modifies this`usersByMXID, this`usersByJID, this`userIndex, usersByMXID.Values
      ensures UsersValid()
      ensures loaded.Failure? ==>
        err == Some(loaded.error) && usersByMXID == old(usersByMXID) && usersByJID == old(usersByJID)
        && userIndex == old(userIndex)
      ensures loaded.Success? ==>
        err == None && userIndex == Merge(old(userIndex), loaded.value, UserMXID, UserJID)
      ensures forall k :: k in old(usersByMXID) ==> k in usersByMXID && usersByMXID[k] == old(usersByMXID[k])
      ensures forall k :: k in usersByMXID && k !in old(usersByMXID) ==> fresh(usersByMXID[k])
    {
      if loaded.Failure? {
        err := Some(loaded.error);
        return;
      }
      var data := loaded.value;
      for i := 0 to |data|
        invariant UsersValid()
        invariant userIndex == Merge(old(userIndex), data[..i], UserMXID, UserJID)
        invariant forall k :: k in old(usersByMXID) ==> k in usersByMXID && usersByMXID[k] == old(usersByMXID[k])
        invariant forall k :: k in usersByMXID && k !in old(usersByMXID) ==> fresh(usersByMXID[k])
      {
        var dbUser := data[i];
        assert data[..i + 1][..i] == data[..i] && data[..i + 1][i] == dbUser;
        assert Merge(old(userIndex), data[..i + 1], UserMXID, UserJID) == Step(userIndex, dbUser, UserMXID, UserJID);
        MergeUser(dbUser);
      }
      assert data[..|data|] == data;
      err := None;
    }

    /** One iteration of LoadUsers: the wrapper already indexed under
        `dbUser`'s Matrix ID gets the record and nothing else changes (the
        loop's `continue`); otherwise a fresh wrapper is indexed by Matrix ID
        and, when the JID is not empty, by JID. */
    method MergeUser(dbUser: Database.User)
      requires UsersValid()
      modifies this`usersByMXID, this`usersByJID, this`userIndex, usersByMXID.Values
      ensures UsersValid()
      ensures userIndex == Step(old(userIndex), dbUser, UserMXID, UserJID)
      ensures forall k :: k in old(usersByMXID) ==> k in usersByMXID && usersByMXID[k] == old(usersByMXID[k])
      ensures forall k :: k in usersByMXID && k !in old(usersByMXID) ==> fresh(usersByMXID[k])
    {
      if dbUser.mxid in usersByMXID {
        var user := usersByMXID[dbUser.mxid];
        UpdateUser(user, dbUser);
        return;
      }
      AddUser(dbUser);
    }

    /** The existing-wrapper path of LoadUsers: the wrapper indexed under
        `dbUser`'s Matrix ID gets the record; neither map changes. */
    method UpdateUser(user: User, dbUser: Database.User)
      requires UsersValid()
      requires dbUser.mxid in usersByMXID && usersByMXID[dbUser.mxid] == user
      modifies user, this`userIndex
      ensures UsersValid()
      ensures userIndex == Step(old(userIndex), dbUser, UserMXID, UserJID)
    {
      assert forall k :: k in usersByMXID && k != dbUser.mxid ==> usersByMXID[k] != user;
      user.user := dbUser;
      userIndex := Step(userIndex, dbUser, UserMXID, UserJID);
    }

    /** The new-wrapper path of LoadUsers: a fresh wrapper for `dbUser`,
        indexed by Matrix ID and, when the JID is not empty, by JID. */
    method AddUser(dbUser: Database.User)
      requires UsersValid()
      requires dbUser.mxid !in usersByMXID
      modifies this`usersByMXID, this`usersByJID, this`userIndex
      ensures UsersValid()
      ensures userIndex == Step(old(userIndex), dbUser, UserMXID, UserJID)
      ensures dbUser.mxid in usersByMXID && fresh(usersByMXID[dbUser.mxid])
      ensures usersByMXID == old(usersByMXID)[dbUser.mxid := usersByMXID[dbUser.mxid]]
    {
      var user := new User(dbUser);
      usersByMXID := usersByMXID[dbUser.mxid := user];
      if |dbUser.jid| > 0 {
        usersByJID := usersByJID[dbUser.jid := user];
        userIndex := Index(userIndex.primary[dbUser.mxid := dbUser], userIndex.secondary[dbUser.jid := dbUser.mxid]);
      } else {
        userIndex := Index(userIndex.primary[dbUser.mxid := dbUser], userIndex.secondary);
      }
    }

    /** SaveUsers: copy every indexed user record, in map order, and hand the
        copy to `save`, whose outcome is `saved`. The secondary map is not
        consulted. */
    method SaveUsers(saved: Option<Error>) returns (data: seq<Database.User>, err: Option<Error>)
      requires UsersValid()
      ensures IsSnapshot(data, userIndex.primary, UserMXID)
      ensures err == saved
    {
      ghost var prim := userIndex.primary;
      assert prim.Keys == usersByMXID.Keys;
      assert |prim| == |prim.Keys| == |usersByMXID.Keys| == |usersByMXID|;
      data := [];
      var rest := usersByMXID.Keys;
      ghost var pos: map<MatrixUserID, nat> := map[];
      while rest != {}
        invariant |data| + |rest| == |prim|
        invariant PartialSnapshot(data, prim, UserMXID, rest, pos)
        decreases rest
      {
        var k :| k in rest;
        PartialSnapshotStep(data, prim, UserMXID, rest, pos, k);
        var user := usersByMXID[k].user;
        assert user == prim[k];
        pos := pos[k := |data|];
        data := data + [user];
        rest := rest - {k};
      }
      PartialSnapshotDone(data, prim, UserMXID, pos);
      err := saved;
    }

    /** LoadPortals: merge the portals that `load` read (or return its error,
        changing nothing). A portal already indexed keeps its wrapper, which
        gets the loaded record; a new one gets a fresh wrapper, indexed by
        room ID too when it has one. */
    method LoadPortals(loaded: Result<seq<Database.Portal>, Error>) returns (err: Option<Error>)
      requires PortalsValid()
      modifies this`portalsByJID, this`portalsByMXID, this`portalIndex, portalsByJID.Values
      ensures PortalsValid()
      ensures loaded.Failure? ==>
        err == Some(loaded.error) && portalsByJID == old(portalsByJID) && portalsByMXID == old(portalsByMXID)
        && portalIndex == old(portalIndex)
      ensures loaded.Success? ==>
        err == None && portalIndex == Merge(old(portalIndex), loaded.value, PortalKeyOf, PortalMXID)
      ensures forall k :: k in old(portalsByJID) ==> k in portalsByJID && portalsByJID[k] == old(portalsByJID[k])
      ensures forall k :: k in portalsByJID && k !in old(portalsByJID) ==> fresh(portalsByJID[k])
    {
      if loaded.Failure? {
        err := Some(loaded.error);
        return;
      }
      var data := loaded.value;
      for i := 0 to |data|
        invariant PortalsValid()
        invariant portalIndex == Merge(old(portalIndex), data[..i], PortalKeyOf, PortalMXID)
        invariant forall k :: k in old(portalsByJID) ==> k in portalsByJID && portalsByJID[k] == old(portalsByJID[k])
        invariant forall k :: k in portalsByJID && k !in old(portalsByJID) ==> fresh(portalsByJID[k])
      {
        var dbPortal := data[i];
        assert data[..i + 1][..i] == data[..i] && data[..i + 1][i] == dbPortal;
        assert Merge(old(portalIndex), data[..i + 1], PortalKeyOf, PortalMXID) == Step(portalIndex, dbPortal, PortalKeyOf, PortalMXID);
        MergePortal(dbPortal);
      }
      assert data[..|data|] == data;
      err := None;
    }

    /** One iteration of LoadPortals: the wrapper already indexed under
        `dbPortal`'s key gets the record and nothing else changes (the
        loop's `continue`); otherwise a fresh wrapper is indexed by key
        and, when the room ID is not empty, by room ID. */
    method MergePortal(dbPortal: Database.Portal)
      requires PortalsValid()
      modifies this`portalsByJID, this`portalsByMXID, this`portalIndex, portalsByJID.Values
      ensures PortalsValid()
      ensures portalIndex == Step(old(portalIndex), dbPortal, PortalKeyOf, PortalMXID)
      ensures forall k :: k in old(portalsByJID) ==> k in portalsByJID && portalsByJID[k] == old(portalsByJID[k])
      ensures forall k :: k in portalsByJID && k !in old(portalsByJID) ==> fresh(portalsByJID[k])
    {
      if dbPortal.key in portalsByJID {
        var portal := portalsByJID[dbPortal.key];
        UpdatePortal(portal, dbPortal);
        return;
      }
      AddPortal(dbPortal);
    }

    /** The existing-wrapper path of LoadPortals: the wrapper indexed under
        `dbPortal`'s key gets the record; neither map changes. */
    method UpdatePortal(portal: Portal, dbPortal: Database.Portal)
      requires PortalsValid()
      requires dbPortal.key in portalsByJID && portalsByJID[dbPortal.key] == portal
      modifies portal, this`portalIndex
      ensures PortalsValid()
      ensures portalIndex == Step(old(portalIndex), dbPortal, PortalKeyOf, PortalMXID)
    {
      assert forall k :: k in portalsByJID && k != dbPortal.key ==> portalsByJID[k] != portal;
      portal.portal := dbPortal;
      portalIndex := Step(portalIndex, dbPortal, PortalKeyOf, PortalMXID);
    }

    /** The new-wrapper path of LoadPortals: a fresh wrapper for `dbPortal`,
        indexed by key and, when the room ID is not empty, by room ID. */
    method AddPortal(dbPortal: Database.Portal)
      requires PortalsValid()
      requires dbPortal.key !in portalsByJID
      modifies this`portalsByJID, this`portalsByMXID, this`portalIndex
      ensures PortalsValid()
      ensures portalIndex == Step(old(portalIndex), dbPortal, PortalKeyOf, PortalMXID)
      ensures dbPortal.key in portalsByJID && fresh(portalsByJID[dbPortal.key])
      ensures portalsByJID == old(portalsByJID)[dbPortal.key := portalsByJID[dbPortal.key]]
    {
      var portal := new Portal(dbPortal);
      portalsByJID := portalsByJID[dbPortal.key := portal];
      if |dbPortal.mxid| > 0 {
        portalsByMXID := portalsByMXID[dbPortal.mxid := portal];
        portalIndex := Index(portalIndex.primary[dbPortal.key := dbPortal], portalIndex.secondary[dbPortal.mxid := dbPortal.key]);
      } else {
        portalIndex := Index(portalIndex.primary[dbPortal.key := dbPortal], portalIndex.secondary);
      }
    }

    /** SavePortals: copy every indexed portal record, in map order, and hand the
        copy to `save`, whose outcome is `saved`. The secondary map is not
        consulted. */
    method SavePortals(saved: Option<Error>) returns (data: seq<Database.Portal>, err: Option<Error>)
      requires PortalsValid()
      ensures IsSnapshot(data, portalIndex.primary, PortalKeyOf)
      ensures err == saved
    {
      ghost var prim := portalIndex.primary;
      assert prim.Keys == portalsByJID.Keys;
      assert |prim| == |prim.Keys| == |portalsByJID.Keys| == |portalsByJID|;
      data := [];
      var rest := portalsByJID.Keys;
      ghost var pos: map<Database.PortalKey, nat> := map[];
      while rest != {}
        invariant |data| + |rest| == |prim|
        invariant PartialSnapshot(data, prim, PortalKeyOf, rest, pos)
        decreases rest
      {
        var k :| k in rest;
        PartialSnapshotStep(data, prim, PortalKeyOf, rest, pos, k);
        var portal := portalsByJID[k].portal;
        assert portal == prim[k];
        pos := pos[k := |data|];
        data := data + [portal];
        rest := rest - {k};
      }
      PartialSnapshotDone(data, prim, PortalKeyOf, pos);
      err := saved;
    }

    /** LoadPuppets: merge the puppets that `load` read (or return its error,
        changing nothing). A puppet already indexed keeps its wrapper, which
        gets the loaded record; a new one gets a fresh wrapper, indexed by
        custom MXID too when it has one. */
    method LoadPuppets(loaded: Result<seq<Database.Puppet>, Error>) returns (err: Option<Error>)
      requires PuppetsValid()
      modifies this`puppets, this`puppetsByCustomMXID, this`puppetIndex, puppets.Values
      ensures PuppetsValid()
      ensures loaded.Failure? ==>
        err == Some(loaded.error) && puppets == old(puppets) && puppetsByCustomMXID == old(puppetsByCustomMXID)
        && puppetIndex == old(puppetIndex)
      ensures loaded.Success? ==>
        err == None && puppetIndex == Merge(old(puppetIndex), loaded.value, PuppetJID, PuppetCustomMXID)
      ensures forall k :: k in old(puppets) ==> k in puppets && puppets[k] == old(puppets[k])
      ensures forall k :: k in puppets && k !in old(puppets) ==> fresh(puppets[k])
    {
      if loaded.Failure? {
        err := Some(loaded.error);
        return;
      }
      var data := loaded.value;
      for i := 0 to |data|
        invariant PuppetsValid()
        invariant puppetIndex == Merge(old(puppetIndex), data[..i], PuppetJID, PuppetCustomMXID)
        invariant forall k :: k in old(puppets) ==> k in puppets && puppets[k] == old(puppets[k])
        invariant forall k :: k in puppets && k !in old(puppets) ==> fresh(puppets[k])
      {
        var dbPuppet := data[i];
        assert data[..i + 1][..i] == data[..i] && data[..i + 1][i] == dbPuppet;
        assert Merge(old(puppetIndex), data[..i + 1], PuppetJID, PuppetCustomMXID) == Step(puppetIndex, dbPuppet, PuppetJID, PuppetCustomMXID);
        MergePuppet(dbPuppet);
      }
      assert data[..|data|] == data;
      err := None;
    }

    /** One iteration of LoadPuppets: the wrapper already indexed under
        `dbPuppet`'s JID gets the record and nothing else changes (the
        loop's `continue`); otherwise a fresh wrapper is indexed by JID
        and, when the custom MXID is not empty, by custom MXID. */
    method MergePuppet(dbPuppet: Database.Puppet)
      requires PuppetsValid()
      modifies this`puppets, this`puppetsByCustomMXID, this`puppetIndex, puppets.Values
      ensures PuppetsValid()
      ensures puppetIndex == Step(old(puppetIndex), dbPuppet, PuppetJID, PuppetCustomMXID)
      ensures forall k :: k in old(puppets) ==> k in puppets && puppets[k] == old(puppets[k])
      ensures forall k :: k in puppets && k !in old(puppets) ==> fresh(puppets[k])
    {
      if dbPuppet.jid in puppets {
        var puppet := puppets[dbPuppet.jid];
        UpdatePuppet(puppet, dbPuppet);
        return;
      }
      AddPuppet(dbPuppet);
    }

    /** The existing-wrapper path of LoadPuppets: the wrapper indexed under
        `dbPuppet`'s JID gets the record; neither map changes. */
    method UpdatePuppet(puppet: Puppet, dbPuppet: Database.Puppet)
      requires PuppetsValid()
      requires dbPuppet.jid in puppets && puppets[dbPuppet.jid] == puppet
      modifies puppet, this`puppetIndex
      ensures PuppetsValid()
      ensures puppetIndex == Step(old(puppetIndex), dbPuppet, PuppetJID, PuppetCustomMXID)
    {
      assert forall k :: k in puppets && k != dbPuppet.jid ==> puppets[k] != puppet;
      puppet.puppet := dbPuppet;
      puppetIndex := Step(puppetIndex, dbPuppet, PuppetJID, PuppetCustomMXID);
    }

    /** The new-wrapper path of LoadPuppets: a fresh wrapper for `dbPuppet`,
        indexed by JID and, when the custom MXID is not empty, by custom MXID. */
    method AddPuppet(dbPuppet: Database.Puppet)
      requires PuppetsValid()
      requires dbPuppet.jid !in puppets
      modifies this`puppets, this`puppetsByCustomMXID, this`puppetIndex
      ensures PuppetsValid()
      ensures puppetIndex == Step(old(puppetIndex), dbPuppet, PuppetJID, PuppetCustomMXID)
      ensures dbPuppet.jid in puppets && fresh(puppets[dbPuppet.jid])
      ensures puppets == old(puppets)[dbPuppet.jid := puppets[dbPuppet.jid]]
    {
      var puppet := new Puppet(dbPuppet);
      puppets := puppets[dbPuppet.jid := puppet];
      if |dbPuppet.customMXID| > 0 {
        puppetsByCustomMXID := puppetsByCustomMXID[dbPuppet.customMXID := puppet];
        puppetIndex := Index(puppetIndex.primary[dbPuppet.jid := dbPuppet], puppetIndex.secondary[dbPuppet.customMXID := dbPuppet.jid]);
      } else {
        puppetIndex := Index(puppetIndex.primary[dbPuppet.jid := dbPuppet], puppetIndex.secondary);
      }
    }

    /** SavePuppets: copy every indexed puppet record, in map order, and hand the
        copy to `save`, whose outcome is `saved`. The secondary map is not
        consulted. */
    method SavePuppets(saved: Option<Error>) returns (data: seq<Database.Puppet>, err: Option<Error>)
      requires PuppetsValid()
      ensures IsSnapshot(data, puppetIndex.primary, PuppetJID)
      ensures err == saved
    {
      ghost var prim := puppetIndex.primary;
      assert prim.Keys == puppets.Keys;
      assert |prim| == |prim.Keys| == |puppets.Keys| == |puppets|;
      data := [];
      var rest := puppets.Keys;
      ghost var pos: map<WhatsAppID, nat> := map[];
      while rest != {}
        invariant |data| + |rest| == |prim|
        invariant PartialSnapshot(data, prim, PuppetJID, rest, pos)
        decreases rest
      {
        var k :| k in rest;
        PartialSnapshotStep(data, prim, PuppetJID, rest, pos, k);
        var puppet := puppets[k].puppet;
        assert puppet == prim[k];
        pos := pos[k := |data|];
        data := data + [puppet];
        rest := rest - {k};
      }
      PartialSnapshotDone(data, prim, PuppetJID, pos);
      err := saved;
    }
  }
}
