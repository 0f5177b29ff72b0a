/** The query language of UserMatch.match: a run of one-character switches,
    an optional nickname prefix, then the text to look for; and the choice of
    the names to scan. */
module Query {
  import opened Runtime
  import opened Oracles

  /** The six search switches of a UserMatch, all false on construction. */
  datatype Flags = Flags(
    offline: bool,    // '!': scan every known user, not only online players
    nickname: bool,   // '~': test nicknames
    keyword: bool,    // '@': recorded, never read by matching
    exact: bool,      // '=': recorded, never read by matching
    username: bool,   // '-': test user names
    hidden: bool)     // '#': do not hide players the sender cannot see

  const NoFlags := Flags(false, false, false, false, false, false)

  predicate IsPrefixChar(c: char)
  {
    c == '!' || c == '~' || c == '-' || c == '@' || c == '=' || c == '#'
  }

  /** One case of the prefix switch: the flag a recognised character turns on
      (any other character ends the scan before it reaches the switch). */
  function SetFlag(f: Flags, c: char): Flags
  {
    if c == '!' then f.(offline := true)
    else if c == '~' then f.(nickname := true)
    else if c == '-' then f.(username := true)
    else if c == '@' then f.(keyword := true)
    else if c == '=' then f.(exact := true)
    else if c == '#' then f.(hidden := true)
    else f
  }

  predicate AllPrefixChars(run: string)
  {
    forall i :: 0 <= i < |run| ==> IsPrefixChar(run[i])
  }

  /** The flags after the switch has seen every character of `run`, left to right. */
  function FlagsOf(run: string): Flags
  {
    if run == [] then NoFlags else SetFlag(FlagsOf(run[..|run| - 1]), run[|run| - 1])
  }

  /** The flag a switch character stands for. */
  function FlagFor(f: Flags, c: char): bool
    requires IsPrefixChar(c)
  {
    if c == '!' then f.offline
    else if c == '~' then f.nickname
    else if c == '-' then f.username
    else if c == '@' then f.keyword
    else if c == '=' then f.exact
    else f.hidden
  }

  /** A switch character turns its own flag on and leaves every other one alone. */
  lemma SetFlagOwn(f: Flags, c: char, d: char)
    requires IsPrefixChar(c)
    ensures FlagFor(SetFlag(f, d), c) == (c == d || FlagFor(f, c))
  {
    if !IsPrefixChar(d) {
      assert SetFlag(f, d) == f;
    }
  }

  /** Each switch character in a run sets exactly its own flag. */
  lemma {:induction false} FlagsOfRun(run: string, c: char)
    requires IsPrefixChar(c)
    ensures FlagFor(FlagsOf(run), c) <==> c in run
  {
    if run != [] {
      var init := run[..|run| - 1];
      FlagsOfRun(init, c);
      SetFlagOwn(FlagsOf(init), c, run[|run| - 1]);
      assert run == init + [run[|run| - 1]];
    }
  }

  /** The length of the maximal leading run of switch characters: the value of
      prefixLength when the prefix scan stops. */
  function PrefixRun(s: string): (k: nat)
    ensures k <= |s|
  {
    if |s| > 0 && IsPrefixChar(s[0]) then 1 + PrefixRun(s[1..]) else 0
  }

  /** The run is made of switch characters and is maximal. */
  lemma {:induction false} PrefixRunMaximal(s: string)
    ensures forall i :: 0 <= i < PrefixRun(s) ==> IsPrefixChar(s[i])
    ensures PrefixRun(s) < |s| ==> !IsPrefixChar(s[PrefixRun(s)])
  {
    if |s| > 0 && IsPrefixChar(s[0]) {
      PrefixRunMaximal(s[1..]);
    }
  }

  /** The constructor's cleanPattern: the trimmed input, case preserved. */
  function InitialClean(raw: string): string
  {
    if raw == [] then [] else Trim(raw)
  }

  /** The prefix run is read from the untrimmed input but cut from the trimmed
      one; trimming never touches a leading run of switches, so the cut is in
      bounds and removes exactly that run. */
  lemma TrimKeepsPrefixRun(raw: string)
    ensures PrefixRun(raw) <= |InitialClean(raw)|
    ensures InitialClean(raw)[..PrefixRun(raw)] == raw[..PrefixRun(raw)]
  {
    var k := PrefixRun(raw);
    if k > 0 {
      PrefixRunMaximal(raw);
      assert TrimStart(raw) == raw;
      TrimEndDrops(raw);
      assert !IsTrimmed(raw[k - 1]);
    }
  }

  /** The pattern after `cleanPattern.substring(prefixLength)`. */
  function AfterPrefix(raw: string): (rest: string)
    ensures InitialClean(raw) == raw[..PrefixRun(raw)] + rest
  {
    TrimKeepsPrefixRun(raw);
    InitialClean(raw)[PrefixRun(raw)..]
  }

  /** What UserMatch.match leaves in a match: its flags, its cleanPattern, and
      whether it got past the three early exits to a candidate set. */
  datatype Parsed = Parsed(flags: Flags, cleanPattern: string, complete: bool)

  /** If neither '~' nor '-' was given, search both nicknames and user names. */
  function WithDefaultMode(f: Flags): Flags
  {
    if !f.nickname && !f.username then f.(nickname := true, username := true) else f
  }

  /** UserMatch.match up to the candidate set. */
  function Parse(raw: string, nicknamePrefix: string): Parsed
  {
    if InitialClean(raw) == [] then Parsed(NoFlags, [], false)
    else ParseRest(FlagsOf(raw[..PrefixRun(raw)]), AfterPrefix(raw), Lower(nicknamePrefix))
  }

  /** The rest of match once the switches are cut: stop if nothing is left,
      strip the (lower-cased) nickname prefix once, stop if that leaves
      nothing, else apply the default mode. */
  function ParseRest(flags: Flags, rest: string, np: string): Parsed
  {
    if rest == [] then Parsed(flags, rest, false)
    else if !StartsWith(rest, np) then Parsed(WithDefaultMode(flags), rest, true)
    else
      var stripped := rest[|np|..];
      if stripped == [] then Parsed(flags, stripped, false)
      else Parsed(WithDefaultMode(flags), stripped, true)
  }

  /** The three early exits, and nothing else, leave a match without candidates. */
  lemma ParseRejects(raw: string, nicknamePrefix: string)
    ensures var rest := AfterPrefix(raw); var np := Lower(nicknamePrefix);
      !Parse(raw, nicknamePrefix).complete <==>
        InitialClean(raw) == [] || rest == [] || (StartsWith(rest, np) && |rest| == |np|)
  {
  }

  /** A parse that reaches the switches keeps the flags they set, adding the
      default mode only when it completes. */
  lemma ParseShape(raw: string, nicknamePrefix: string)
    requires InitialClean(raw) != []
    ensures var p := Parse(raw, nicknamePrefix); var flags := FlagsOf(raw[..PrefixRun(raw)]);
      p.flags == if p.complete then WithDefaultMode(flags) else flags
  {
    var rest := AfterPrefix(raw);
    if rest != [] {
      var np := Lower(nicknamePrefix);
      if StartsWith(rest, np) {
        var stripped := rest[|np|..];
        assert Parse(raw, nicknamePrefix).complete == (stripped != []);
      }
    }
  }

  /** The switches read from the input: each one sets exactly its own flag; an
      input that trims to nothing sets none; a completed parse always tests
      nicknames or user names, and both when neither '~' nor '-' was given. */
  lemma ParseFlags(raw: string, nicknamePrefix: string)
    ensures var p := Parse(raw, nicknamePrefix); var run := raw[..PrefixRun(raw)];
      && (InitialClean(raw) == [] ==> p.flags == NoFlags)
      && (InitialClean(raw) != [] ==>
           && (p.flags.offline <==> '!' in run)
           && (p.flags.keyword <==> '@' in run)
           && (p.flags.exact <==> '=' in run)
           && (p.flags.hidden <==> '#' in run)
           && (p.flags.nickname <==> '~' in run || (p.complete && '-' !in run))
           && (p.flags.username <==> '-' in run || (p.complete && '~' !in run)))
  {
    var run := raw[..PrefixRun(raw)];
    if InitialClean(raw) != [] {
      ParseShape(raw, nicknamePrefix);
      FlagsOfRun(run, '!');
      FlagsOfRun(run, '~');
      FlagsOfRun(run, '-');
      FlagsOfRun(run, '@');
      FlagsOfRun(run, '=');
      FlagsOfRun(run, '#');
    }
  }

  lemma StripOnce(rest: string, np: string, tail: string)
    requires rest == np + np + tail
    ensures StartsWith(rest, np) && rest[|np|..] == np + tail
  {
    assert rest[..|np|] == np;
  }

  /** The lower-cased nickname prefix is stripped at most once. */
  lemma NicknamePrefixStrippedOnce(raw: string, nicknamePrefix: string, tail: string)
    requires Lower(nicknamePrefix) != []
    requires AfterPrefix(raw) == Lower(nicknamePrefix) + Lower(nicknamePrefix) + tail
    ensures Parse(raw, nicknamePrefix).complete
    ensures Parse(raw, nicknamePrefix).cleanPattern == Lower(nicknamePrefix) + tail
  {
    var np := Lower(nicknamePrefix);
    var rest := AfterPrefix(raw);
    StripOnce(rest, np, tail);
    assert InitialClean(raw) != [];
    assert rest[|np|..] != [];
  }

  /** The prefix is compared with the case-preserved pattern, so a pattern that
      spells it with different case keeps it. */
  lemma NicknamePrefixCaseSensitive(raw: string, nicknamePrefix: string)
    requires InitialClean(raw) != [] && AfterPrefix(raw) != []
    requires !StartsWith(AfterPrefix(raw), Lower(nicknamePrefix))
    ensures Parse(raw, nicknamePrefix).complete
    ensures Parse(raw, nicknamePrefix).cleanPattern == AfterPrefix(raw)
  {
  }

  predicate Distinct(names: seq<string>)
  {
    forall i, j :: 0 <= i < j < |names| ==> names[i] != names[j]
  }

  /** HashSet.add: the name joins the set unless it is there already. */
  function AddName(names: seq<string>, name: string): seq<string>
  {
    if name in names then names else names + [name]
  }

  /** The HashSet of online player names that match builds, in the order the
      names were added (one admissible iteration order). */
  function CollectNames(names: seq<string>): (r: seq<string>)
    ensures Distinct(r)
    ensures forall n :: n in r <==> n in names
  {
    if names == [] then []
    else AddName(CollectNames(names[..|names| - 1]), names[|names| - 1])
  }

  /** The candidate set: every known user with '!', else the online players. */
  function Candidates(w: World, f: Flags): (r: seq<string>)
    ensures f.offline ==> r == w.knownNames
    ensures !f.offline ==> Distinct(r) && forall n :: n in r <==> n in w.onlineNames
  {
    if f.offline then w.knownNames else CollectNames(w.onlineNames)
  }
}
