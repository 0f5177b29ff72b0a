/** TooManyMatchesException: thrown when a name resolves to more than one
    user. Its message walks the match it carries a second time: reset, then
    either a plain "too many matches" or the list of every match. */
module TooManyMatches {
  import opened Runtime
  import opened Oracles
  import opened Query
  import opened Scan
  import opened UserMatching

  /** A localised message: the key handed to the translation table and its
      arguments (the rendering itself lies outside this model). */
  datatype Message = Message(key: string, args: seq<string>)

  const TooManyMatchesKey := "tooManyMatches"
  const TooManyMatchesWithListKey := "tooManyMatchesWithList"

  /** One turn of the list builder: a separator before every entry but the
      first non-empty stretch, then the entry. */
  function AppendEntry(builder: string, entry: string): string
  {
    if |builder| > 0 then builder + ", " + entry else builder + entry
  }

  /** The builder after appending every entry in turn. */
  function BuildList(entries: seq<string>): string
  {
    if entries == [] then "" else AppendEntry(BuildList(entries[..|entries| - 1]), entries[|entries| - 1])
  }

  /** The entries separated by ", ". */
  function Join(entries: seq<string>): string
  {
    if entries == [] then ""
    else if |entries| == 1 then entries[0]
    else Join(entries[..|entries| - 1]) + ", " + entries[|entries| - 1]
  }

  lemma {:induction false} JoinEmptyOnlyIfBlank(entries: seq<string>)
    requires entries != [] && entries[0] != []
    ensures Join(entries) != []
  {
    if |entries| > 1 {
      JoinEmptyOnlyIfBlank(entries[..|entries| - 1]);
    }
  }

  /** With no empty display name, the builder produces the ", "-separated list. */
  lemma {:induction false} BuildListJoins(entries: seq<string>)
    requires forall i :: 0 <= i < |entries| ==> entries[i] != []
    ensures BuildList(entries) == Join(entries)
  {
    if |entries| > 1 {
      var init := entries[..|entries| - 1];
      BuildListJoins(init);
      JoinEmptyOnlyIfBlank(init);
    }
  }

  /** The separator is decided by the builder's length, so an empty first
      display name swallows the separator before the second. */
  lemma EmptyFirstEntryDropsSeparator(name: string)
    ensures BuildList(["", name]) == name
    ensures Join(["", name]) == ", " + name
  {
    assert ["", name][..1] == [""];
    assert [""][..0] == [];
    assert BuildList([""]) == "";
  }

  /** The for-each loop of getMessage, from cursor c with the builder so far:
      hasNext, then next, then the display name of the user it hands out. */
  function ListLoop(c: Cursor, w: World, builder: string): (st: Step<Outcome<Message>>)
    requires Valid(c)
    ensures Valid(st.after)
    decreases Progress(c)
  {
    var h := HasNextStep(c, w);
    match h.result
    case Throw(f) => Step(Throw(f), h.after)
    case Return(more) =>
      if !more then Step(Return(Message(TooManyMatchesWithListKey, [builder])), h.after)
      else
        var n := NextStep(h.after, w);
        match n.result
        case Throw(f) => Step(Throw(f), n.after)
        case Return(user) =>
          if user.None? then Step(Throw(NullPointer), n.after)
          else
            NextUserProgress(c, w);
            ListLoop(n.after, w, AppendEntry(builder, user.value.displayName))
  }

  /** getMessage on a match in state c: reset, then the list when hasNext
      answers true, the plain message otherwise. */
  function MessageFor(c: Cursor, w: World): (st: Step<Outcome<Message>>)
    requires Valid(c)
    ensures Valid(st.after)
  {
    var r := ResetStep(c);
    if r.result.Some? then Step(Throw(r.result.value), r.after)
    else
      var h := HasNextStep(r.after, w);
      match h.result
      case Throw(f) => Step(Throw(f), h.after)
      case Return(more) =>
        if more then ListLoop(h.after, w, "")
        else Step(Return(Message(TooManyMatchesKey, [])), h.after)
  }

  /** On a used-up cursor with nothing cached the list loop dereferences the
      null that next hands out. */
  lemma ListLoopExhausted(c: Cursor, w: World, builder: string)
    requires Valid(c) && Exhausted(c) && c.cached.None?
    ensures ListLoop(c, w, builder).result == Throw(NullPointer)
  {
    ExhaustedStaysEmpty(c, w);
    ExhaustedStaysEmpty(c.(canRemove := false), w);
  }

  /** Some name of the candidate set other than the last passes the test. */
  predicate HasTestedMatch(s: Search, w: World, names: seq<string>)
  {
    exists j :: 0 <= j < |names| - 1 && TestCandidate(s, w, names[j]).Some?
  }

  /** What getMessage does, whatever state the match is in: without a
      candidate set it throws; if a name passes the test it gives the plain
      message; otherwise the list loop runs into a null user. It never gives
      the list. */
  lemma MessageOutcome(c: Cursor, w: World)
    requires Valid(c)
    ensures c.names.None? ==> MessageFor(c, w).result == Throw(NullPointer)
    ensures c.names.Some? && HasTestedMatch(c.search, w, c.names.value) ==>
      MessageFor(c, w).result == Return(Message(TooManyMatchesKey, []))
    ensures c.names.Some? && !HasTestedMatch(c.search, w, c.names.value) ==>
      MessageFor(c, w).result == Throw(NullPointer)
  {
    var r := ResetStep(c);
    if c.names.Some? {
      HasNextInverted(r.after, w);
      var h := HasNextStep(r.after, w);
      if h.result == Return(true) {
        ListLoopExhausted(h.after, w, "");
      }
    }
  }

  /** The message never carries the list of matches. */
  lemma MessageNeverLists(c: Cursor, w: World)
    requires Valid(c)
    ensures MessageFor(c, w).result.Return? ==> MessageFor(c, w).result.value.key == TooManyMatchesKey
  {
    MessageOutcome(c, w);
  }

  class TooManyMatchesException {
    const matches: UserMatch?

    /** The no-argument constructor: no match is attached. */
    constructor Empty()
      ensures matches == null
    {
      matches := null;
    }

    constructor(users: UserMatch)
      ensures matches == users
    {
      matches := users;
    }

    /** getMessage: a null match throws at reset; otherwise the match is reset
        and walked as MessageFor says. */
    method GetMessage() returns (r: Outcome<Message>)
      requires matches != null ==> matches.Valid()
      modifies matches
      ensures matches == null ==> r == Throw(NullPointer)
      ensures matches != null ==>
        && matches.Valid()
        && r == MessageFor(old(matches.State()), matches.world).result
        && matches.State() == MessageFor(old(matches.State()), matches.world).after
    {
      if matches == null {
        return Throw(NullPointer);
      }
      var fault := matches.Reset();
      if fault.Some? {
        return Throw(fault.value);
      }
      var first := matches.HasNext();
      if first.Throw? {
        return Throw(first.fault);
      }
      if !first.value {
        return Return(Message(TooManyMatchesKey, []));
      }
      var builder := "";
      while true
        invariant matches.Valid()
        invariant ListLoop(matches.State(), matches.world, builder)
               == MessageFor(old(matches.State()), matches.world)
        decreases Progress(matches.State())
      {
        ghost var before := matches.State();
        var more := matches.HasNext();
        if more.Throw? {
          return Throw(more.fault);
        }
        if !more.value {
          return Return(Message(TooManyMatchesWithListKey, [builder]));
        }
        var user := matches.Next();
        if user.Throw? {
          return Throw(user.fault);
        }
        if user.value.None? {
          return Throw(NullPointer);
        }
        NextUserProgress(before, matches.world);
        builder := AppendEntry(builder, user.value.value.displayName);
      }
    }
  }
}
