/** The lazy scan behind UserMatch: the per-name test of nextMatch, the
    visibility rule of checkUser, and the cursor (cachedNext, canRemove and the
    set iterator) as a value, with one function per cursor operation. The class
    UserMatch is proved to update its fields exactly as these functions say. */
module Scan {
  import opened Runtime
  import opened Oracles
  import opened Query

  /** The parts of a match a scan reads: flags, cleanPattern and sender. */
  datatype Search = Search(flags: Flags, pattern: string, sender: User)

  /** matchString: the lower-cased text contains cleanPattern, which is not lower-cased. */
  predicate MatchString(pattern: string, text: string)
  {
    Contains(Lower(text), pattern)
  }

  /** A pattern with an upper-case letter matches no text at all. */
  lemma UpperCasePatternNeverMatches(pattern: string, text: string, j: int)
    requires 0 <= j < |pattern| && IsUpper(pattern[j])
    ensures !MatchString(pattern, text)
  {
    UpperNeverInLower(text, pattern, j);
  }

  /** checkUser: only a pair of online players can hide one from the other. */
  function CheckUser(s: Search, w: World, user: User): bool
  {
    if s.sender.online && user.online then
      s.flags.offline || s.flags.hidden || w.canSee(s.sender.name, user.name)
    else
      true
  }

  /** A candidate is suppressed exactly when both parties are online, neither
      '!' nor '#' is in force, and the sender cannot see the candidate. */
  lemma CheckUserHidesOnlyOnlinePairs(s: Search, w: World, user: User)
    ensures !CheckUser(s, w, user) <==>
      s.sender.online && user.online && !s.flags.offline && !s.flags.hidden
      && !w.canSee(s.sender.name, user.name)
  {
  }

  /** The body of nextMatch's loop for one drawn name: the nickname test first,
      then the user-name test; the user it would return, if any. */
  function TestCandidate(s: Search, w: World, name: string): Option<User>
  {
    var user := w.userOf(name);
    if s.flags.nickname && MatchString(s.pattern, user.nickname) && CheckUser(s, w, user) then
      Some(user)
    else if s.flags.username && MatchString(s.pattern, name) && CheckUser(s, w, user) then
      Some(user)
    else
      None
  }

  /** A name yields its own user record exactly when that user is visible and
      the nickname (under '~' or the default) or the name (under '-' or the
      default) contains the pattern. */
  lemma TestCandidateHit(s: Search, w: World, name: string)
    ensures TestCandidate(s, w, name).Some? <==>
      CheckUser(s, w, w.userOf(name))
      && ((s.flags.nickname && MatchString(s.pattern, w.userOf(name).nickname))
          || (s.flags.username && MatchString(s.pattern, name)))
    ensures TestCandidate(s, w, name).Some? ==> TestCandidate(s, w, name).value == w.userOf(name)
  {
  }

  /** Where a run of nextMatch stops: the user found, if any, and the
      iterator's position afterwards. */
  datatype ScanResult = ScanResult(user: Option<User>, pos: nat)

  /** nextMatch's for loop, entered with names[i] just drawn. The loop tests a
      drawn name only while the iterator has another one, so the last name is
      drawn and dropped untested. */
  function ScanFrom(s: Search, w: World, names: seq<string>, i: nat): (r: ScanResult)
    requires i < |names|
    ensures i < r.pos <= |names|
    decreases |names| - i
  {
    if i + 1 == |names| then ScanResult(None, |names|)
    else
      match TestCandidate(s, w, names[i])
      case Some(user) => ScanResult(Some(user), i + 1)
      case None => ScanFrom(s, w, names, i + 1)
  }

  /** The scan returns the first name, from i on and short of the last one,
      whose test succeeds; it returns nothing exactly when no such name exists,
      and then it has used up the iterator. */
  lemma {:induction false} ScanFromFindsFirst(s: Search, w: World, names: seq<string>, i: nat)
    requires i < |names|
    decreases |names| - i
    ensures var r := ScanFrom(s, w, names, i);
      && (r.user.None? <==> forall j :: i <= j < |names| - 1 ==> TestCandidate(s, w, names[j]).None?)
      && (r.user.None? ==> r.pos == |names|)
      && (r.user.Some? ==>
            && r.pos < |names|
            && TestCandidate(s, w, names[r.pos - 1]) == r.user
            && forall j :: i <= j < r.pos - 1 ==> TestCandidate(s, w, names[j]).None?)
  {
    if i + 1 < |names| {
      ScanFromFindsFirst(s, w, names, i + 1);
    }
  }

  /** Whatever the last name of the candidate sequence is, the scan is the same. */
  lemma {:induction false} LastNameNeverTested(s: Search, w: World, names: seq<string>, i: nat, other: string)
    requires i < |names|
    decreases |names| - i
    ensures ScanFrom(s, w, names, i) == ScanFrom(s, w, names[..|names| - 1] + [other], i)
  {
    var replaced := names[..|names| - 1] + [other];
    assert |replaced| == |names|;
    if i + 1 < |names| {
      assert replaced[i] == names[i];
      LastNameNeverTested(s, w, names, i + 1, other);
    }
  }

  /** The '@' and '=' switches change nothing in a scan. */
  lemma {:induction false} KeywordAndExactIgnored(s: Search, w: World, names: seq<string>, i: nat, keyword: bool, exact: bool)
    requires i < |names|
    decreases |names| - i
    ensures ScanFrom(s, w, names, i)
      == ScanFrom(s.(flags := s.flags.(keyword := keyword, exact := exact)), w, names, i)
  {
    var t := s.(flags := s.flags.(keyword := keyword, exact := exact));
    assert TestCandidate(s, w, names[i]) == TestCandidate(t, w, names[i]);
    if i + 1 < |names| {
      KeywordAndExactIgnored(s, w, names, i + 1, keyword, exact);
    }
  }

  /** The state of a HashSet iterator: the index of the next name, and whether
      remove() is allowed (a name was drawn and not yet removed). */
  datatype Iter = Iter(pos: nat, drawn: bool)

  /** The mutable state of a UserMatch: the search it runs, usernamesToScan,
      scanIterator, cachedNext and canRemove (None standing for null). */
  datatype Cursor = Cursor(
    search: Search,
    names: Option<seq<string>>,
    iter: Option<Iter>,
    cached: Option<User>,
    canRemove: bool)

  /** An iterator exists only over a candidate set and stays within it. */
  predicate Valid(c: Cursor)
  {
    c.iter.Some? ==>
      && c.names.Some?
      && c.iter.value.pos <= |c.names.value|
      && (c.iter.value.drawn ==> c.iter.value.pos > 0)
  }

  /** Names the iterator has still to draw. */
  function Remaining(c: Cursor): nat
    requires Valid(c)
  {
    if c.iter.Some? then |c.names.value| - c.iter.value.pos else 0
  }

  /** Work left to a cursor: two per undrawn name, one for a cached user. */
  function Progress(c: Cursor): nat
    requires Valid(c)
  {
    2 * Remaining(c) + (if c.cached.Some? then 1 else 0)
  }

  predicate Exhausted(c: Cursor)
    requires Valid(c)
  {
    c.iter.Some? && c.iter.value.pos == |c.names.value|
  }

  /** The value a cursor operation returns (or the exception it throws) and the
      cursor it leaves. */
  datatype Step<+T> = Step(result: T, after: Cursor)

  /** nextMatch: a null iterator throws; an empty one yields null; otherwise
      one name is drawn and the loop runs. Only the iterator changes. */
  function NextMatchStep(c: Cursor, w: World): (st: Step<Outcome<Option<User>>>)
    requires Valid(c)
    ensures Valid(st.after) && st.after == c.(iter := st.after.iter)
    ensures Remaining(st.after) <= Remaining(c)
    ensures st.result.Return? && st.result.value.Some? ==> Remaining(st.after) < Remaining(c)
  {
    if c.iter.None? then Step(Throw(NullPointer), c)
    else
      var names := c.names.value;
      var pos := c.iter.value.pos;
      if pos == |names| then Step(Return(None), c)
      else
        var r := ScanFrom(c.search, w, names, pos);
        Step(Return(r.user), c.(iter := Some(Iter(r.pos, true))))
  }

  /** cacheNext: clear canRemove, then store nextMatch's result (kept unchanged
      if nextMatch throws). */
  function CacheNextStep(c: Cursor, w: World): (st: Step<Option<Fault>>)
    requires Valid(c)
    ensures Valid(st.after)
    ensures st.after.search == c.search && st.after.names == c.names
  {
    var m := NextMatchStep(c.(canRemove := false), w);
    match m.result
    case Throw(f) => Step(Some(f), m.after)
    case Return(user) => Step(None, m.after.(cached := user))
  }

  /** hasNext: true with a cached user; otherwise cache the next match and
      report whether the cache is still empty. */
  function HasNextStep(c: Cursor, w: World): (st: Step<Outcome<bool>>)
    requires Valid(c)
    ensures Valid(st.after)
    ensures st.after.search == c.search && st.after.names == c.names
  {
    if c.cached.Some? then Step(Return(true), c)
    else
      var n := CacheNextStep(c, w);
      match n.result
      case Some(f) => Step(Throw(f), n.after)
      case None => Step(Return(n.after.cached.None?), n.after)
  }

  /** next: fill an empty cache, then hand out and clear it, allowing remove. */
  function NextStep(c: Cursor, w: World): (st: Step<Outcome<Option<User>>>)
    requires Valid(c)
    ensures Valid(st.after)
    ensures st.after.search == c.search && st.after.names == c.names
  {
    var n := if c.cached.None? then CacheNextStep(c, w) else Step(None, c);
    match n.result
    case Some(f) => Step(Throw(f), n.after)
    case None => Step(Return(n.after.cached), n.after.(canRemove := true, cached := None))
  }

  /** reset: clear the cache and canRemove, then restart the iterator over the
      candidate set (throwing if there is none). */
  function ResetStep(c: Cursor): (st: Step<Option<Fault>>)
    requires Valid(c)
    ensures Valid(st.after)
  {
    var cleared := c.(cached := None, canRemove := false);
    if c.names.None? then Step(Some(NullPointer), cleared)
    else Step(None, cleared.(iter := Some(Iter(0, false))))
  }

  /** remove: refused unless canRemove; otherwise the iterator removes the name
      it drew last from the candidate set, or throws if it has none to remove. */
  function RemoveStep(c: Cursor): (st: Step<Option<Fault>>)
    requires Valid(c)
    ensures Valid(st.after)
  {
    if !c.canRemove then Step(Some(RemoveNotPermitted), c)
    else if c.iter.None? then Step(Some(NullPointer), c)
    else if !c.iter.value.drawn then Step(Some(IllegalState), c)
    else
      var names := c.names.value;
      var p := c.iter.value.pos - 1;
      Step(None, c.(names := Some(names[..p] + names[p + 1..]), iter := Some(Iter(p, false))))
  }

  /** A hasNext that answers true followed by a next that hands out a user
      consumes either the cached user or at least one name. */
  lemma NextUserProgress(c: Cursor, w: World)
    requires Valid(c)
    requires HasNextStep(c, w).result == Return(true)
    requires var n := NextStep(HasNextStep(c, w).after, w); n.result.Return? && n.result.value.Some?
    ensures Progress(NextStep(HasNextStep(c, w).after, w).after) < Progress(c)
  {
  }

  /** The remove window: next opens it whenever it returns, while cacheNext
      and reset close it whatever happens. */
  lemma RemoveWindow(c: Cursor, w: World)
    requires Valid(c)
    ensures NextStep(c, w).result.Return? ==> NextStep(c, w).after.canRemove
    ensures !CacheNextStep(c, w).after.canRemove
    ensures !ResetStep(c).after.canRemove
    ensures HasNextStep(c, w).after.canRemove ==> c.cached.Some? && c.canRemove
  {
  }

  /** A nextMatch that finds nothing leaves the iterator used up. */
  lemma NoMatchExhausts(c: Cursor, w: World)
    requires Valid(c)
    requires NextMatchStep(c, w).result == Return(None)
    ensures Exhausted(NextMatchStep(c, w).after)
  {
    if c.iter.value.pos < |c.names.value| {
      ScanFromFindsFirst(c.search, w, c.names.value, c.iter.value.pos);
    }
  }

  /** Without a cached user, hasNext answers true exactly when no name left to
      test (all but the last undrawn one) passes: it is inverted. When it
      answers true the iterator is used up and nothing is cached. */
  lemma HasNextInverted(c: Cursor, w: World)
    requires Valid(c) && c.iter.Some? && c.cached.None?
    ensures var names := c.names.value; var pos := c.iter.value.pos;
      HasNextStep(c, w).result == Return(true) <==>
        forall j :: pos <= j < |names| - 1 ==> TestCandidate(c.search, w, names[j]).None?
    ensures HasNextStep(c, w).result.Throw? == false
    ensures HasNextStep(c, w).result == Return(true) ==>
      Exhausted(HasNextStep(c, w).after) && HasNextStep(c, w).after.cached.None?
  {
    if c.iter.value.pos < |c.names.value| {
      ScanFromFindsFirst(c.search, w, c.names.value, c.iter.value.pos);
    }
  }

  /** Once hasNext has answered true, every further hasNext answers true and
      every next hands out null, without moving the cursor. */
  lemma ExhaustedStaysEmpty(c: Cursor, w: World)
    requires Valid(c) && Exhausted(c) && c.cached.None?
    ensures HasNextStep(c, w) == Step(Return(true), c.(canRemove := false))
    ensures NextStep(c, w) == Step(Return(None), c.(canRemove := true))
  {
  }

  /** Repeating reset changes nothing further. */
  lemma ResetIdempotent(c: Cursor)
    requires Valid(c)
    ensures ResetStep(ResetStep(c).after) == ResetStep(c)
  {
  }

  /** After reset the cursor no longer depends on where the scan had got to:
      two cursors over the same search and candidates reset to the same state. */
  lemma ResetForgetsProgress(c: Cursor, d: Cursor)
    requires Valid(c) && Valid(d)
    requires c.search == d.search && c.names == d.names
    ensures ResetStep(c) == ResetStep(d)
  {
  }

  /** remove succeeds exactly when canRemove holds and the iterator has a drawn
      name; it then deletes that one occurrence and the names still to be drawn
      stay as they were. */
  lemma RemoveDeletesLastDrawn(c: Cursor)
    requires Valid(c)
    ensures RemoveStep(c).result.None? <==>
      c.canRemove && c.iter.Some? && c.iter.value.drawn
    ensures RemoveStep(c).result.None? ==>
      var names := c.names.value; var p := c.iter.value.pos - 1;
      var after := RemoveStep(c).after;
      && multiset(after.names.value) == multiset(names) - multiset{names[p]}
      && after.names.value[after.iter.value.pos..] == names[c.iter.value.pos..]
      && !after.iter.value.drawn
  {
    if RemoveStep(c).result.None? {
      var names := c.names.value;
      var p := c.iter.value.pos - 1;
      assert names == names[..p] + [names[p]] + names[p + 1..];
    }
  }

  /** After next hands out a user found by a fresh scan, remove deletes a name
      whose test produced that very user. */
  lemma NextThenRemove(c: Cursor, w: World)
    requires Valid(c) && c.iter.Some? && c.cached.None?
    requires NextStep(c, w).result.Return? && NextStep(c, w).result.value.Some?
    ensures var after := NextStep(c, w).after;
      && after.canRemove
      && RemoveStep(after).result.None?
      && TestCandidate(c.search, w, c.names.value[after.iter.value.pos - 1])
           == NextStep(c, w).result.value
  {
    var pos := c.iter.value.pos;
    if pos < |c.names.value| {
      ScanFromFindsFirst(c.search, w, c.names.value, pos);
    }
  }
}
