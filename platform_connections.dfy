/**
 * The connection screen of src/components/PlatformConnections.tsx: the
 * `platforms` registry and the `connecting` marker. The two-second delay
 * before a connect completes is not modelled; a connect is its start and its
 * completion, and the completion says whether the awaited call succeeded.
 */
module PlatformConnections {
  import opened Wrappers
  import opened Types
  import opened Platforms

  /** `prev.map(p => p.id === platformId ? { ...p, connected: value } : p)`. */
  function SetConnected(ps: seq<SocialPlatform>, platformId: string, value: bool): (r: seq<SocialPlatform>)
    ensures |r| == |ps|
    ensures forall i :: 0 <= i < |ps| ==> r[i] == if ps[i].id == platformId then ps[i].(connected := value) else ps[i]
  {
    if ps == [] then []
    else [if ps[0].id == platformId then ps[0].(connected := value) else ps[0]] + SetConnected(ps[1..], platformId, value)
  }

  /** The update keeps the ids in their order. */
  lemma SetConnectedIds(ps: seq<SocialPlatform>, platformId: string, value: bool)
    ensures Ids(SetConnected(ps, platformId, value)) == Ids(ps)
  {
    var r := SetConnected(ps, platformId, value);
    assert forall i :: 0 <= i < |ps| ==> Ids(r)[i] == Ids(ps)[i];
  }

  /** The update keeps the ids, their order, and every field but `connected`. */
  lemma SetConnectedKeepsFields(ps: seq<SocialPlatform>, platformId: string, value: bool)
    ensures var r := SetConnected(ps, platformId, value);
      && Ids(r) == Ids(ps)
      && forall i :: 0 <= i < |ps| ==>
           r[i].name == ps[i].name && r[i].icon == ps[i].icon && r[i].color == ps[i].color
           && r[i].requiresAuth == ps[i].requiresAuth
           && r[i].connected == (if ps[i].id == platformId then value else ps[i].connected)
  {
    SetConnectedIds(ps, platformId, value);
  }

  /** The registry is left identical exactly when every entry with that id already has that flag. */
  lemma SetConnectedIdentityIff(ps: seq<SocialPlatform>, platformId: string, value: bool)
    ensures SetConnected(ps, platformId, value) == ps <==>
      forall i :: 0 <= i < |ps| && ps[i].id == platformId ==> ps[i].connected == value
  {
    var r := SetConnected(ps, platformId, value);
    if forall i :: 0 <= i < |ps| && ps[i].id == platformId ==> ps[i].connected == value {
      assert forall i :: 0 <= i < |ps| ==> r[i] == ps[i];
    } else {
      var i :| 0 <= i < |ps| && ps[i].id == platformId && ps[i].connected != value;
      assert r[i].connected != ps[i].connected;
    }
  }

  /** An unknown id leaves the registry identical. */
  lemma SetConnectedUnknown(ps: seq<SocialPlatform>, platformId: string, value: bool)
    requires platformId !in Ids(ps)
    ensures SetConnected(ps, platformId, value) == ps
  {
    SetConnectedIdentityIff(ps, platformId, value);
    forall i | 0 <= i < |ps| && ps[i].id == platformId ensures ps[i].connected == value {
      assert Ids(ps)[i] == platformId;
    }
  }

  /** A second update of the same id overrides the first; in particular each update is idempotent. */
  lemma SetConnectedOverride(ps: seq<SocialPlatform>, platformId: string, a: bool, b: bool)
    ensures SetConnected(SetConnected(ps, platformId, a), platformId, b) == SetConnected(ps, platformId, b)
  {
    var m := SetConnected(ps, platformId, a);
    var r := SetConnected(m, platformId, b);
    var s := SetConnected(ps, platformId, b);
    forall i | 0 <= i < |ps| ensures r[i] == s[i] {
      assert m[i].id == ps[i].id;
    }
  }

  /** Disconnecting right after connecting a platform that was disconnected restores the registry. */
  lemma ConnectThenDisconnect(ps: seq<SocialPlatform>, platformId: string)
    requires forall i :: 0 <= i < |ps| && ps[i].id == platformId ==> !ps[i].connected
    ensures SetConnected(SetConnected(ps, platformId, true), platformId, false) == ps
  {
    SetConnectedOverride(ps, platformId, true, false);
    SetConnectedIdentityIff(ps, platformId, false);
  }

  /** Connecting a platform the registry holds leaves an entry with that id connected. */
  lemma ConnectedAfterConnect(ps: seq<SocialPlatform>, platformId: string)
    requires platformId in Ids(ps)
    ensures var r := SetConnected(ps, platformId, true);
      exists i :: 0 <= i < |r| && r[i].id == platformId && r[i].connected
  {
    var k :| 0 <= k < |ps| && Ids(ps)[k] == platformId;
    assert SetConnected(ps, platformId, true)[k].connected;
  }

  /** The component's state. */
  class Connections {
    var platforms: seq<SocialPlatform>
    var connecting: Option<string>

    /** The registry always holds the four platforms of `SOCIAL_PLATFORMS`, in order. */
    ghost predicate Valid()
      reads this
    {
      Ids(platforms) == RegistryIdList
    }

    /** `useState(SOCIAL_PLATFORMS)` and `useState(null)`. */
    constructor ()
      ensures platforms == SocialPlatforms && connecting == None && Valid()
    {
      platforms, connecting := SocialPlatforms, None;
      RegistryIds();
    }

    /** The spinner shown, and the Connect button disabled, on the entry being connected. */
    predicate IsConnecting(platformId: string)
      reads this
    {
      connecting == Some(platformId)
    }

    /** The start of `handleConnect`: the marker names the platform. */
    method BeginConnect(platformId: string)
      modifies this
      ensures connecting == Some(platformId) && IsConnecting(platformId)
      ensures platforms == old(platforms)
    {
      connecting := Some(platformId);
    }

    /**
     * The end of `handleConnect`: on success the entries with that id are
     * marked connected; success or not, the marker is cleared.
     */
    method FinishConnect(platformId: string, succeeded: bool)
      requires Valid()
      modifies this
      ensures Valid()
      ensures platforms == if succeeded then SetConnected(old(platforms), platformId, true) else old(platforms)
      ensures connecting == None
    {
      if succeeded {
        SetConnectedIds(platforms, platformId, true);
        platforms := SetConnected(platforms, platformId, true);
      }
      connecting := None;
    }

    /** `handleConnect` run to completion. */
    method Connect(platformId: string, succeeded: bool)
      requires Valid()
      modifies this
      ensures Valid()
      ensures platforms == if succeeded then SetConnected(old(platforms), platformId, true) else old(platforms)
      ensures connecting == None
    {
      BeginConnect(platformId);
      FinishConnect(platformId, succeeded);
    }

    /** `handleDisconnect`: the entries with that id are marked disconnected; the marker is untouched. */
    method Disconnect(platformId: string)
      requires Valid()
      modifies this
      ensures Valid()
      ensures platforms == SetConnected(old(platforms), platformId, false)
      ensures connecting == old(connecting)
    {
      SetConnectedIds(platforms, platformId, false);
      platforms := SetConnected(platforms, platformId, false);
    }
  }

  /** From the initial registry, connecting a platform and then disconnecting it gives the initial registry back. */
  lemma RoundTripFromInitial(platformId: string)
    ensures SetConnected(SetConnected(SocialPlatforms, platformId, true), platformId, false) == SocialPlatforms
  {
    RegistryInitialFlags();
    ConnectThenDisconnect(SocialPlatforms, platformId);
  }
}
