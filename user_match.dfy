/** UserMatch: the result of matching a typed name against the players. It
    parses the query once, then acts as its own lazy, resettable iterator over
    the users it matches. */
module UserMatching {
  import opened Runtime
  import opened Oracles
  import opened Query
  import opened Scan

  /** The state UserMatch.match leaves in a new match: the parsed flags and
      pattern, and (only when the parse completes) the candidate set with a
      fresh iterator over it. */
  function Prepared(w: World, sender: User, raw: string): Cursor
  {
    var p := Parse(raw, w.nicknamePrefix);
    var search := Search(p.flags, p.cleanPattern, sender);
    if p.complete then Cursor(search, Some(Candidates(w, p.flags)), Some(Iter(0, false)), None, false)
    else Cursor(search, None, None, None, false)
  }

  /** A new match has a candidate set exactly when the parse completed, the set
      is every known user under '!' and the online players otherwise, and it is
      positioned at the start with nothing cached; an incomplete parse leaves
      both the set and the iterator null. */
  lemma PreparedCandidates(w: World, sender: User, raw: string)
    ensures var c := Prepared(w, sender, raw); var p := Parse(raw, w.nicknamePrefix);
      && Valid(c) && c.cached.None? && !c.canRemove
      && (c.names.Some? <==> p.complete)
      && (c.iter.Some? <==> p.complete)
      && (p.complete ==> c.iter.value == Iter(0, false))
      && (p.complete && p.flags.offline ==> c.names.value == w.knownNames)
      && (p.complete && !p.flags.offline ==>
            Distinct(c.names.value) && forall n :: n in c.names.value <==> n in w.onlineNames)
  {
  }

  /** If the loop over the input stops at k, k is the length of the switch run. */
  lemma {:induction false} PrefixRunStopsAt(s: string, k: nat)
    requires k <= |s| && AllPrefixChars(s[..k])
    requires k < |s| ==> !IsPrefixChar(s[k])
    ensures k == PrefixRun(s)
  {
    if k > 0 {
      assert IsPrefixChar(s[..k][0]);
      assert s[1..][..k - 1] == s[..k][1..];
      PrefixRunStopsAt(s[1..], k - 1);
    }
  }

  /** One more switch character extends the run and sets its flag. */
  lemma ExtendRun(s: string, k: nat)
    requires k < |s| && AllPrefixChars(s[..k]) && IsPrefixChar(s[k])
    ensures AllPrefixChars(s[..k + 1])
    ensures FlagsOf(s[..k + 1]) == SetFlag(FlagsOf(s[..k]), s[k])
  {
    assert s[..k + 1][..k] == s[..k];
  }

  class UserMatch {
    var valid: bool
    const pattern: string
    var cleanPattern: string
    var offlineSearch: bool
    var nicknameSearch: bool
    var keywordSearch: bool
    var exactSearch: bool
    var usernameSearch: bool
    var hiddenSearch: bool
    var usernamesToScan: Option<seq<string>>
    var scanIterator: Option<Iter>
    var cachedNext: Option<User>
    var canRemove: bool
    const sender: User
    const world: World

    function SearchFlags(): Flags
      reads this
    {
      Flags(offlineSearch, nicknameSearch, keywordSearch, exactSearch, usernameSearch, hiddenSearch)
    }

    function CurrentSearch(): Search
      reads this
    {
      Search(SearchFlags(), cleanPattern, sender)
    }

    /** The abstract value of the object: everything but valid and pattern. */
    ghost function State(): Cursor
      reads this
    {
      Cursor(CurrentSearch(), usernamesToScan, scanIterator, cachedNext, canRemove)
    }

    ghost predicate Valid()
      reads this
    {
      Scan.Valid(State())
    }

    /** The private constructor: pattern is the lower-cased input, cleanPattern
        its trimmed form; no flag is set and there is no candidate set yet. */
    constructor(world: World, sender: User, raw: string)
      ensures this.world == world && this.sender == sender
      ensures pattern == Lower(raw) && cleanPattern == InitialClean(raw)
      ensures !valid && SearchFlags() == NoFlags
      ensures usernamesToScan.None? && scanIterator.None? && cachedNext.None? && !canRemove
      ensures Valid()
    {
      this.world := world;
      this.sender := sender;
      pattern := Lower(raw);
      cleanPattern := if raw == [] then [] else Trim(raw);
      valid := false;
      offlineSearch, nicknameSearch, keywordSearch := false, false, false;
      exactSearch, usernameSearch, hiddenSearch := false, false, false;
      usernamesToScan, scanIterator, cachedNext, canRemove := None, None, None, false;
    }

    /** The static factory: parse the query into flags and cleanPattern and,
        unless the parse stopped early, install the candidate set. */
    static method Match(world: World, sender: User, raw: string) returns (m: UserMatch)
      ensures fresh(m) && m.world == world && m.sender == sender
      ensures m.Valid() && !m.valid && m.pattern == Lower(raw)
      ensures m.State() == Prepared(world, sender, raw)
    {
      m := new UserMatch(world, sender, raw);
      var complete := m.ParsePattern(raw);
      if !complete {
        return;
      }

      var usernames: seq<string>;
      if m.offlineSearch {
        usernames := world.knownNames;
      } else {
        usernames := OnlineNames(world.onlineNames);
      }
      m.SetUsernamesToScan(usernames);
    }

    /** The parsing half of match: stop on an empty cleanPattern, cut the
        switches, then the nickname prefix and the default mode; the answer
        says whether match goes on to the candidate set. */
    method ParsePattern(raw: string) returns (complete: bool)
      requires !valid && SearchFlags() == NoFlags && cleanPattern == InitialClean(raw)
      modifies this`valid, this`cleanPattern, this`offlineSearch, this`nicknameSearch
      modifies this`keywordSearch, this`exactSearch, this`usernameSearch, this`hiddenSearch
      ensures var p := Parse(raw, world.nicknamePrefix);
        !valid && complete == p.complete && SearchFlags() == p.flags && cleanPattern == p.cleanPattern
    {
      if cleanPattern == [] {
        Invalid();
        return false;
      }
      CutSwitches(raw);
      complete := ParseRest(Lower(world.nicknamePrefix));
    }

    /** "Check for prefixes": run the switch scan over the untrimmed input, then
        cut as many characters from the front of cleanPattern. */
    method CutSwitches(raw: string)
      requires SearchFlags() == NoFlags && cleanPattern == InitialClean(raw)
      modifies this`cleanPattern, this`offlineSearch, this`nicknameSearch
      modifies this`keywordSearch, this`exactSearch, this`usernameSearch, this`hiddenSearch
      ensures SearchFlags() == FlagsOf(raw[..PrefixRun(raw)]) && cleanPattern == AfterPrefix(raw)
    {
      var prefixLength := ScanSwitches(raw);
      TrimKeepsPrefixRun(raw);
      cleanPattern := cleanPattern[prefixLength..];
    }

    /** The rest of match after the cut: stop on an empty pattern, strip the
        nickname prefix once (stopping if nothing is left), then default to
        both search modes when neither was asked for. */
    method ParseRest(nicknamePrefix: string) returns (complete: bool)
      requires !valid
      modifies this`valid, this`cleanPattern, this`nicknameSearch, this`usernameSearch
      ensures var p := Query.ParseRest(old(SearchFlags()), old(cleanPattern), nicknamePrefix);
        !valid && complete == p.complete && SearchFlags() == p.flags && cleanPattern == p.cleanPattern
    {
      var clean := cleanPattern;
      if clean == [] {
        Invalid();
        return false;
      }
      if StartsWith(clean, nicknamePrefix) {
        clean := clean[|nicknamePrefix|..];
        cleanPattern := clean;
        if clean == [] {
          Invalid();
          return false;
        }
      }
      if !nicknameSearch && !usernameSearch {
        nicknameSearch := true;
        usernameSearch := true;
      }
      return true;
    }

    /** The public setter of hiddenSearch. */
    method SetHiddenSearch(b: bool)
      modifies this`hiddenSearch
      ensures State() == old(State()).(search := old(CurrentSearch()).(flags := old(SearchFlags()).(hidden := b)))
    {
      hiddenSearch := b;
    }

    /** The public setter of offlineSearch. */
    method SetOfflineSearch(b: bool)
      modifies this`offlineSearch
      ensures State() == old(State()).(search := old(CurrentSearch()).(flags := old(SearchFlags()).(offline := b)))
    {
      offlineSearch := b;
    }

    /** The HashSet of online player names, filled one player at a time. */
    static method OnlineNames(players: seq<string>) returns (usernames: seq<string>)
      ensures usernames == CollectNames(players)
    {
      usernames := [];
      for i := 0 to |players|
        invariant usernames == CollectNames(players[..i])
      {
        assert players[..i + 1][..i] == players[..i];
        var name := players[i];
        if name !in usernames {
          usernames := usernames + [name];
        }
      }
      assert players[..|players|] == players;
    }

    /** The prefix_scan loop of match: each leading switch character of the
        untrimmed input sets its flag; the first other character stops it. */
    method ScanSwitches(raw: string) returns (prefixLength: nat)
      requires SearchFlags() == NoFlags
      modifies this`offlineSearch, this`nicknameSearch, this`keywordSearch
      modifies this`exactSearch, this`usernameSearch, this`hiddenSearch
      ensures prefixLength == PrefixRun(raw)
      ensures SearchFlags() == FlagsOf(raw[..prefixLength])
    {
      prefixLength := 0;
      while prefixLength < |raw|
        invariant prefixLength <= |raw| && AllPrefixChars(raw[..prefixLength])
        invariant SearchFlags() == FlagsOf(raw[..prefixLength])
        decreases |raw| - prefixLength
      {
        var c := raw[prefixLength];
        if c == '!' {
          offlineSearch := true;
        } else if c == '~' {
          nicknameSearch := true;
        } else if c == '-' {
          usernameSearch := true;
        } else if c == '@' {
          keywordSearch := true;
        } else if c == '=' {
          exactSearch := true;
        } else if c == '#' {
          hiddenSearch := true;
        } else {
          break;
        }
        ExtendRun(raw, prefixLength);
        prefixLength := prefixLength + 1;
      }
      PrefixRunStopsAt(raw, prefixLength);
    }

    /** invalid(): valid is set to false (it is never set to true). */
    method Invalid()
      modifies this`valid
      ensures !valid
    {
      valid := false;
    }

    /** Install the candidate set and reset the cursor over it. */
    method SetUsernamesToScan(usernames: seq<string>)
      requires Valid() && scanIterator.None?
      modifies this`usernamesToScan, this`scanIterator, this`cachedNext, this`canRemove
      ensures usernamesToScan == Some(usernames) && scanIterator == Some(Iter(0, false))
      ensures cachedNext.None? && !canRemove
    {
      usernamesToScan := Some(usernames);
      var _ := Reset();
    }

    /** reset: clear cachedNext and canRemove, then restart the iterator. */
    method Reset() returns (fault: Option<Fault>)
      requires Valid()
      modifies this`scanIterator, this`cachedNext, this`canRemove
      ensures Valid()
      ensures Step(fault, State()) == ResetStep(old(State()))
    {
      cachedNext := None;
      canRemove := false;
      if usernamesToScan.None? {
        return Some(NullPointer);
      }
      scanIterator := Some(Iter(0, false));
      return None;
    }

    /** hasNext: true with a cached user; otherwise cache the next match and
        answer whether the cache is still empty. */
    method HasNext() returns (r: Outcome<bool>)
      requires Valid()
      modifies this`scanIterator, this`cachedNext, this`canRemove
      ensures Valid()
      ensures Step(r, State()) == HasNextStep(old(State()), world)
    {
      if cachedNext.Some? {
        return Return(true);
      }
      var fault := CacheNext();
      if fault.Some? {
        return Throw(fault.value);
      }
      return Return(cachedNext.None?);
    }

    /** next: hand out the cached user (caching one first if need be) and
        allow remove. */
    method Next() returns (r: Outcome<Option<User>>)
      requires Valid()
      modifies this`scanIterator, this`cachedNext, this`canRemove
      ensures Valid()
      ensures Step(r, State()) == NextStep(old(State()), world)
    {
      if cachedNext.None? {
        var fault := CacheNext();
        if fault.Some? {
          return Throw(fault.value);
        }
      }
      var current := cachedNext;
      canRemove := true;
      cachedNext := None;
      return Return(current);
    }

    /** cacheNext: forbid remove, then cache nextMatch's result. */
    method CacheNext() returns (fault: Option<Fault>)
      requires Valid()
      modifies this`scanIterator, this`cachedNext, this`canRemove
      ensures Valid()
      ensures Step(fault, State()) == CacheNextStep(old(State()), world)
    {
      canRemove := false;
      var r := NextMatch();
      if r.Throw? {
        return Some(r.fault);
      }
      cachedNext := r.value;
      return None;
    }

    /** nextMatch: draw names until one passes the nickname or the user-name
        test; a drawn name is tested only while another one remains. */
    method NextMatch() returns (r: Outcome<Option<User>>)
      requires Valid()
      modifies this`scanIterator
      ensures Valid()
      ensures Step(r, State()) == NextMatchStep(old(State()), world)
    {
      if scanIterator.None? {
        return Throw(NullPointer);
      }
      var names := usernamesToScan.value;
      var pos := scanIterator.value.pos;
      if pos == |names| {
        return Return(None);
      }
      ghost var start := pos;
      var username := names[pos];
      pos := pos + 1;
      scanIterator := Some(Iter(pos, true));
      while pos < |names|
        invariant start < pos <= |names| && username == names[pos - 1]
        invariant scanIterator == Some(Iter(pos, true))
        invariant ScanFrom(CurrentSearch(), world, names, start)
               == ScanFrom(CurrentSearch(), world, names, pos - 1)
        decreases |names| - pos
      {
        if nicknameSearch {
          var user := world.userOf(username);
          if MatchString(cleanPattern, user.nickname) && CheckUser(CurrentSearch(), world, user) {
            return Return(Some(user));
          }
        }
        if usernameSearch {
          if MatchString(cleanPattern, username) {
            var user := world.userOf(username);
            if CheckUser(CurrentSearch(), world, user) {
              return Return(Some(user));
            }
          }
        }
        username := names[pos];
        pos := pos + 1;
        scanIterator := Some(Iter(pos, true));
      }
      return Return(None);
    }

    /** remove: only while canRemove holds, delete the name the iterator drew
        last from the candidate set. */
    method Remove() returns (fault: Option<Fault>)
      requires Valid()
      modifies this`usernamesToScan, this`scanIterator
      ensures Valid()
      ensures Step(fault, State()) == RemoveStep(old(State()))
    {
      if !canRemove {
        return Some(RemoveNotPermitted);
      }
      if scanIterator.None? {
        return Some(NullPointer);
      }
      if !scanIterator.value.drawn {
        return Some(IllegalState);
      }
      var p := scanIterator.value.pos - 1;
      var names := usernamesToScan.value;
      usernamesToScan := Some(names[..p] + names[p + 1..]);
      scanIterator := Some(Iter(p, false));
      return None;
    }
  }
}
