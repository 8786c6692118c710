/** The persisted record types of the bridge (package `database`) and the
    constructors and rendering of portal keys. */
module Database {
  import opened Wrappers
  import opened Types

  /** The JID suffix that marks a WhatsApp group. */
  const GroupSuffix: string := "@g.us"

  /** Go's strings.HasSuffix. */
  predicate HasSuffix(s: string, suffix: string) {
    |suffix| <= |s| && s[|s| - |suffix|..] == suffix
  }

  /** A group JID is one that ends in "@g.us". */
  predicate IsGroupJID(jid: WhatsAppID) {
    HasSuffix(jid, GroupSuffix)
  }

  /** The identity of a portal: the remote conversation and whose view of it
      this is. All members of a group share one portal (Receiver == JID);
      a one-to-one chat gets one portal per bridge user. */
  datatype PortalKey = PortalKey(jid: WhatsAppID, receiver: WhatsAppID)
  {
    /** The printable form: the JID alone for a shared portal, else "JID-Receiver". */
    function String(): (s: string)
      ensures |jid| <= |s| && s[..|jid|] == jid
      ensures s == jid <==> receiver == jid
    {
      if receiver == jid then jid else jid + "-" + receiver
    }
  }

  /** The key of the shared portal of group `jid`. */
  function GroupPortalKey(jid: WhatsAppID): (key: PortalKey)
    ensures key.jid == jid && key.receiver == jid
    ensures key.String() == jid
  {
    PortalKey(jid, jid)
  }

  /** The key of conversation `jid` as seen by `receiver`; a group JID
      overrides the receiver with the JID itself. */
  function NewPortalKey(jid: WhatsAppID, receiver: WhatsAppID): (key: PortalKey)
    ensures key.jid == jid
    ensures IsGroupJID(jid) ==> key.receiver == jid
    ensures !IsGroupJID(jid) ==> key.receiver == receiver
  {
    var receiver := if IsGroupJID(jid) then jid else receiver;
    PortalKey(jid, receiver)
  }

  /** For a group JID the caller's receiver does not matter. */
  lemma NewPortalKeyOfGroup(jid: WhatsAppID, receiver: WhatsAppID)
    requires IsGroupJID(jid)
    ensures NewPortalKey(jid, receiver) == GroupPortalKey(jid)
    ensures NewPortalKey(jid, receiver).String() == jid
  {
  }

  /** Rebuilding a key from its own parts gives it back. */
  lemma NewPortalKeyIdempotent(jid: WhatsAppID, receiver: WhatsAppID)
    ensures var key := NewPortalKey(jid, receiver);
      NewPortalKey(key.jid, key.receiver) == key
  {
  }

  /** The position of the first `c` in `s`, if any. */
  function FirstIndex(s: string, c: char): (r: Option<nat>)
    ensures r.None? <==> c !in s
    ensures r.Some? ==> r.value < |s| && s[r.value] == c && c !in s[..r.value]
  {
    if s == [] then None
    else if s[0] == c then Some(0)
    else match FirstIndex(s[1..], c)
      case None => None
      case Some(i) =>
        assert s[1..][..i] == s[1..i + 1];
        Some(i + 1)
  }

  /** Reads a key back from its printable form, splitting at the first '-'. */
  function ParsePortalKey(s: string): (key: PortalKey)
  {
    match FirstIndex(s, '-')
    case None => PortalKey(s, s)
    case Some(i) => PortalKey(s[..i], s[i + 1..])
  }

  /** The first `c` in `a + [c] + b` is the one after `a` when `a` has none. */
  lemma {:induction false} FirstIndexAfter(a: string, c: char, b: string)
    requires c !in a
    ensures FirstIndex(a + [c] + b, c) == Some(|a|)
  {
    if a != [] {
      assert (a + [c] + b)[1..] == a[1..] + [c] + b;
      FirstIndexAfter(a[1..], c, b);
    }
  }

  /** The printable form determines the key whenever the JID holds no '-'.
      WhatsApp user JIDs never do, but group JIDs such as "123-456@g.us" do,
      and for those the round trip fails (see StringCollision). */
  lemma ParseString(key: PortalKey)
    requires '-' !in key.jid
    ensures ParsePortalKey(key.String()) == key
  {
    if key.receiver != key.jid {
      var n := |key.jid|;
      var s := key.jid + ['-'] + key.receiver;
      assert key.String() == s;
      FirstIndexAfter(key.jid, '-', key.receiver);
      assert s[..n] == key.jid;
      assert s[n + 1..] == key.receiver;
    }
  }

  /** Examples of the group-JID rule. */
  lemma PortalKeyExamples()
    ensures NewPortalKey("123@g.us", "other").receiver == "123@g.us"
    ensures NewPortalKey("123@net", "456").receiver == "456"
    ensures GroupPortalKey("123@g.us") == PortalKey("123@g.us", "123@g.us")
  {
    assert IsGroupJID("123@g.us") by {
      assert "123@g.us"[3..] == GroupSuffix;
    }
    assert !IsGroupJID("123@net") by {
      assert "123@net"[2..][3] != GroupSuffix[3];
    }
  }

  /** The printable form is not injective: a group key whose JID holds a
      '-' prints like a one-to-one key, and reading it back splits it there. */
  lemma StringCollision()
    ensures GroupPortalKey("1-2@g.us") != PortalKey("1", "2@g.us")
    ensures GroupPortalKey("1-2@g.us").String() == PortalKey("1", "2@g.us").String()
    ensures ParsePortalKey(GroupPortalKey("1-2@g.us").String()) == PortalKey("1", "2@g.us")
  {
    var s := "1-2@g.us";
    assert s == "1" + ['-'] + "2@g.us";
    FirstIndexAfter("1", '-', "2@g.us");
    assert s[..1] == "1" && s[2..] == "2@g.us";
  }

  /** A go-whatsapp session; its contents are opaque to the bridge. */
  datatype Session = Session(blob: seq<bv8>)

  /** A bridge user, keyed by Matrix ID; JID is "" until the user logs in. */
  datatype User = User(
    mxid: MatrixUserID,
    jid: WhatsAppID,
    managementRoom: MatrixRoomID,
    session: Option<Session>,
    lastConnection: u64,
    portalKeys: seq<PortalKey>)

  /** A portal room, keyed by its PortalKey; MXID is "" until a room exists. */
  datatype Portal = Portal(
    key: PortalKey,
    mxid: MatrixRoomID,
    name: string,
    topic: string,
    avatar: string,
    avatarURL: string,
    userIDs: map<MatrixUserID, bool>)

  /** A puppet, keyed by the contact's JID; CustomMXID is "" unless a real
      Matrix account has been linked to it. */
  datatype Puppet = Puppet(jid: WhatsAppID, customMXID: MatrixUserID)
}
