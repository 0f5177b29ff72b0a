/** UserMap: the registry of users, as far as name matching goes. It resolves
    a typed name to a match (matchUsers) or to a single user (matchUser), and
    keeps the players that are joining under their lower-cased names. */
module UserMapping {
  import opened Runtime
  import opened Oracles
  import opened Query
  import opened Scan
  import opened UserMatching
  import opened TooManyMatches

  /** How a call of matchUser ends: it returns a user (possibly null), throws
      PlayerNotFoundException or TooManyMatchesException, or crashes with an
      unchecked exception. */
  datatype Resolution =
    | Found(user: Option<User>)
    | PlayerNotFound
    | TooManyMatches
    | Crashed(fault: Fault)

  /** addPrejoinedPlayer: the player is filed under its lower-cased name. */
  function Prejoin(m: map<string, Player>, player: Player): map<string, Player>
  {
    m[Lower(player.name) := player]
  }

  /** removePrejoinedPlayer: the entry under the lower-cased name goes. */
  function Unjoin(m: map<string, Player>, player: Player): map<string, Player>
  {
    m - {Lower(player.name)}
  }

  predicate LowerKeys(m: map<string, Player>)
  {
    forall k :: k in m ==> Lower(k) == k
  }

  /** Both operations keep every key lower-cased. */
  lemma PrejoinKeepsLowerKeys(m: map<string, Player>, player: Player)
    requires LowerKeys(m)
    ensures LowerKeys(Prejoin(m, player)) && LowerKeys(Unjoin(m, player))
  {
    LowerIdempotent(player.name);
  }

  /** Removal ignores case: removing a player whose name differs from the
      added one only in case undoes the addition. */
  lemma UnjoinIgnoresCase(m: map<string, Player>, added: Player, removed: Player)
    requires Lower(added.name) == Lower(removed.name)
    ensures Unjoin(Prejoin(m, added), removed) == Unjoin(m, removed)
    ensures Lower(added.name) !in Unjoin(Prejoin(m, added), removed)
  {
  }

  /** Either operation touches the one lower-cased key and no other entry. */
  lemma PrejoinTouchesOneKey(m: map<string, Player>, player: Player, k: string)
    requires k != Lower(player.name)
    ensures k in Prejoin(m, player) <==> k in m
    ensures k in Unjoin(m, player) <==> k in m
    ensures k in m ==> Prejoin(m, player)[k] == m[k] && Unjoin(m, player)[k] == m[k]
  {
  }

  /** The flags matchUsers sets on a new match, after match has chosen the
      candidate set. */
  function Overlay(c: Cursor, includeHidden: bool, includeOffline: bool): Cursor
  {
    var f := c.search.flags;
    var hidden := if includeHidden then f.(hidden := true) else f;
    var flags := if includeOffline then hidden.(offline := true) else hidden;
    c.(search := c.search.(flags := flags))
  }

  /** matchUsers: look the requester up (a null requester throws), match the
      name for that sender, then overlay the flags. */
  function MatchUsersState(w: World, name: string, includeHidden: bool, includeOffline: bool,
                           requester: Option<Player>): Outcome<Cursor>
  {
    if requester.None? then Throw(NullPointer)
    else Return(Overlay(Prepared(w, w.userOf(requester.value.name), name), includeHidden, includeOffline))
  }

  /** The body of matchUser on a match in state c: hasNext, next, hasNext. */
  function Resolve(c: Cursor, w: World): (st: Step<Resolution>)
    requires Valid(c)
    ensures Valid(st.after)
    ensures st.after.search == c.search && st.after.names == c.names
  {
    var h := HasNextStep(c, w);
    match h.result
    case Throw(f) => Step(Crashed(f), h.after)
    case Return(more) =>
      if !more then Step(PlayerNotFound, h.after)
      else
        var n := NextStep(h.after, w);
        match n.result
        case Throw(f) => Step(Crashed(f), n.after)
        case Return(user) =>
          var again := HasNextStep(n.after, w);
          match again.result
          case Throw(f) => Step(Crashed(f), again.after)
          case Return(tooMany) =>
            if tooMany then Step(TooManyMatches, again.after)
            else Step(Found(user), again.after)
  }

  /** matchUser as a whole. */
  function MatchUserResult(w: World, name: string, includeHidden: bool, includeOffline: bool,
                           requester: Option<Player>): Resolution
  {
    match MatchUsersState(w, name, includeHidden, includeOffline, requester)
    case Throw(f) => Crashed(f)
    case Return(c) =>
      PreparedCandidates(w, w.userOf(requester.value.name), name);
      Resolve(c, w).result
  }

  /** On a fresh cursor, matchUser's body crashes without an iterator; a name
      that passes the test (short of the last) makes it report "not found";
      otherwise it reports "too many matches". */
  lemma ResolveOutcome(c: Cursor, w: World)
    requires Valid(c) && c.cached.None?
    ensures c.iter.None? ==> Resolve(c, w).result == Crashed(NullPointer)
    ensures c.iter.Some? ==>
      var names := c.names.value; var pos := c.iter.value.pos;
      && ((exists j :: pos <= j < |names| - 1 && TestCandidate(c.search, w, names[j]).Some?) ==>
            Resolve(c, w).result == PlayerNotFound)
      && ((forall j :: pos <= j < |names| - 1 ==> TestCandidate(c.search, w, names[j]).None?) ==>
            Resolve(c, w).result == TooManyMatches)
  {
    if c.iter.Some? {
      HasNextInverted(c, w);
      var h := HasNextStep(c, w);
      if h.result == Return(true) {
        ExhaustedStaysEmpty(h.after, w);
        var n := NextStep(h.after, w);
        ExhaustedStaysEmpty(n.after, w);
      }
    }
  }

  /** matchUser never returns a user: a found user is reported as not found,
      no user as too many matches, and a missing requester or an incomplete
      parse crashes. */
  lemma MatchUserOutcome(w: World, name: string, includeHidden: bool, includeOffline: bool,
                         requester: Option<Player>)
    ensures var r := MatchUserResult(w, name, includeHidden, includeOffline, requester);
      && !r.Found?
      && (requester.None? ==> r == Crashed(NullPointer))
      && (requester.Some? && !Parse(name, w.nicknamePrefix).complete ==> r == Crashed(NullPointer))
      && (requester.Some? && Parse(name, w.nicknamePrefix).complete ==>
            var c := MatchUsersState(w, name, includeHidden, includeOffline, requester).value;
            (r == PlayerNotFound <==> HasTestedMatch(c.search, w, c.names.value))
            && (r == TooManyMatches <==> !HasTestedMatch(c.search, w, c.names.value)))
  {
    if requester.Some? {
      var c := MatchUsersState(w, name, includeHidden, includeOffline, requester).value;
      PreparedCandidates(w, w.userOf(requester.value.name), name);
      ResolveOutcome(c, w);
    }
  }

  /** The offline flag is set after the candidates were chosen, so asking for
      offline users adds none unless the name itself starts with '!'. */
  lemma OfflineOverlayKeepsOnlineCandidates(w: World, name: string, includeHidden: bool, requester: Player)
    requires Parse(name, w.nicknamePrefix).complete && !Parse(name, w.nicknamePrefix).flags.offline
    ensures var c := MatchUsersState(w, name, includeHidden, true, Some(requester)).value;
      c.search.flags.offline && c.names == Some(CollectNames(w.onlineNames))
  {
  }

  /** matchUsers only ever sets flags: every flag of the match stays on, and
      the candidate set and the cursor are left alone. */
  lemma OverlayNeverClears(c: Cursor, includeHidden: bool, includeOffline: bool)
    ensures var o := Overlay(c, includeHidden, includeOffline); var f := c.search.flags; var g := o.search.flags;
      && (f.offline ==> g.offline) && (f.nickname == g.nickname) && (f.keyword == g.keyword)
      && (f.exact == g.exact) && (f.username == g.username) && (f.hidden ==> g.hidden)
      && (g.hidden <==> f.hidden || includeHidden) && (g.offline <==> f.offline || includeOffline)
      && o.search.pattern == c.search.pattern && o.search.sender == c.search.sender
      && o.names == c.names && o.iter == c.iter && o.cached == c.cached && o.canRemove == c.canRemove
  {
  }

  /** With includeHidden, no candidate is ever suppressed for visibility. */
  lemma HiddenOverlayShowsAll(w: World, name: string, includeOffline: bool, requester: Player, user: User)
    ensures var c := MatchUsersState(w, name, true, includeOffline, Some(requester)).value;
      CheckUser(c.search, w, user)
  {
  }

  /** The TooManyMatchesException thrown by matchUser carries a match whose
      getMessage dereferences null. */
  lemma TooManyMessageCrashes(c: Cursor, w: World)
    requires Valid(c) && c.cached.None? && c.iter == Some(Iter(0, false))
    requires Resolve(c, w).result == TooManyMatches
    ensures MessageFor(Resolve(c, w).after, w).result == Throw(NullPointer)
  {
    ResolveOutcome(c, w);
    MessageOutcome(Resolve(c, w).after, w);
  }

  class UserMap {
    var prejoinedPlayers: map<string, Player>
    const world: World

    constructor(world: World)
      ensures this.world == world && prejoinedPlayers == map[]
      ensures Valid()
    {
      this.world := world;
      prejoinedPlayers := map[];
    }

    ghost predicate Valid()
      reads this
    {
      LowerKeys(prejoinedPlayers)
    }

    method AddPrejoinedPlayer(player: Player)
      requires Valid()
      modifies this`prejoinedPlayers
      ensures Valid()
      ensures prejoinedPlayers == Prejoin(old(prejoinedPlayers), player)
    {
      PrejoinKeepsLowerKeys(prejoinedPlayers, player);
      prejoinedPlayers := prejoinedPlayers[Lower(player.name) := player];
    }

    method RemovePrejoinedPlayer(player: Player)
      requires Valid()
      modifies this`prejoinedPlayers
      ensures Valid()
      ensures prejoinedPlayers == Unjoin(old(prejoinedPlayers), player)
    {
      PrejoinKeepsLowerKeys(prejoinedPlayers, player);
      prejoinedPlayers := prejoinedPlayers - {Lower(player.name)};
    }

    /** matchUsers(name, includeHidden, includeOffline, requester). */
    method MatchUsers(name: string, includeHidden: bool, includeOffline: bool, requester: Option<Player>)
      returns (r: Outcome<UserMatch>)
      ensures r.Throw? <==> requester.None?
      ensures r.Throw? ==> r.fault == NullPointer
      ensures r.Return? ==>
        && fresh(r.value) && r.value.world == world && r.value.Valid() && r.value.cachedNext.None?
        && MatchUsersState(world, name, includeHidden, includeOffline, requester) == Return(r.value.State())
    {
      if requester.None? {
        return Throw(NullPointer);
      }
      var sender := world.userOf(requester.value.name);
      var m := UserMatch.Match(world, sender, name);
      PreparedCandidates(world, sender, name);
      if includeHidden {
        m.SetHiddenSearch(true);
      }
      if includeOffline {
        m.SetOfflineSearch(true);
      }
      return Return(m);
    }

    /** matchUsers(name, includeOffline): the requester passed on is null. */
    method MatchUsersIncludingHidden(name: string, includeOffline: bool) returns (r: Outcome<UserMatch>)
      ensures r == Throw(NullPointer)
    {
      r := MatchUsers(name, true, includeOffline, None);
    }

    /** matchUsersExcludingHidden(name, requester). */
    method MatchUsersExcludingHidden(name: string, requester: Option<Player>) returns (r: Outcome<UserMatch>)
      ensures r.Throw? <==> requester.None?
      ensures r.Return? ==>
        && fresh(r.value) && r.value.Valid()
        && MatchUsersState(world, name, false, false, requester) == Return(r.value.State())
    {
      r := MatchUsers(name, false, false, requester);
    }

    /** matchUser(name, includeHidden, includeOffline, requester): the
        exception out-parameter is the TooManyMatchesException it throws. */
    method MatchUser(name: string, includeHidden: bool, includeOffline: bool, requester: Option<Player>)
      returns (r: Resolution, ex: TooManyMatchesException?)
      ensures r == MatchUserResult(world, name, includeHidden, includeOffline, requester)
      ensures r.TooManyMatches? <==> ex != null
      ensures ex != null ==>
        && fresh(ex) && ex.matches != null && fresh(ex.matches) && ex.matches.Valid()
        && ex.matches.State()
           == Resolve(MatchUsersState(world, name, includeHidden, includeOffline, requester).value, world).after
    {
      var found := MatchUsers(name, includeHidden, includeOffline, requester);
      if found.Throw? {
        return Crashed(found.fault), null;
      }
      var m := found.value;
      var first := m.HasNext();
      if first.Throw? {
        return Crashed(first.fault), null;
      }
      if !first.value {
        return PlayerNotFound, null;
      }
      var user := m.Next();
      if user.Throw? {
        return Crashed(user.fault), null;
      }
      var again := m.HasNext();
      if again.Throw? {
        return Crashed(again.fault), null;
      }
      if again.value {
        ex := new TooManyMatchesException(m);
        return TooManyMatches, ex;
      }
      return Found(user.value), null;
    }

    /** matchUser(name, includeOffline): the null requester crashes it. */
    method MatchUserIncludingHidden(name: string, includeOffline: bool)
      returns (r: Resolution, ex: TooManyMatchesException?)
      ensures r == Crashed(NullPointer) && ex == null
    {
      r, ex := MatchUser(name, true, includeOffline, None);
    }

    /** matchUserExcludingHidden(name, requester). */
    method MatchUserExcludingHidden(name: string, requester: Option<Player>)
      returns (r: Resolution, ex: TooManyMatchesException?)
      ensures r == MatchUserResult(world, name, false, false, requester)
      ensures r.TooManyMatches? <==> ex != null
    {
      r, ex := MatchUser(name, false, false, requester);
    }
  }
}
