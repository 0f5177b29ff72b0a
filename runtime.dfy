/** Java runtime notions the matcher relies on: nullable values, exceptions,
    and the String operations it calls (toLowerCase, trim, startsWith, contains). */
module Runtime {

  /** A Java reference that may be null. */
  datatype Option<+T> = None | Some(value: T)

  /** The unchecked exceptions the modelled code can raise. */
  datatype Fault =
    | NullPointer          // a null reference is dereferenced
    | IllegalState         // Iterator.remove() without a preceding next()
    | RemoveNotPermitted   // UserMatch.remove() outside its window (a RuntimeException)

  /** What a Java call does: return normally with a value, or throw. */
  datatype Outcome<+T> = Return(value: T) | Throw(fault: Fault)

  predicate IsUpper(c: char) { 'A' <= c <= 'Z' }

  function ToLowerChar(c: char): (r: char)
    ensures !IsUpper(r)
    ensures !IsUpper(c) ==> r == c
  {
    if IsUpper(c) then (c as int + 32) as char else c
  }

  /** String.toLowerCase, on the ASCII letters only. */
  function Lower(s: string): (r: string)
    ensures |r| == |s|
  {
    if s == [] then [] else [ToLowerChar(s[0])] + Lower(s[1..])
  }

  /** toLowerCase maps the string character by character. */
  lemma {:induction false} LowerAt(s: string, i: int)
    requires 0 <= i < |s|
    ensures Lower(s)[i] == ToLowerChar(s[i])
  {
    if i > 0 {
      LowerAt(s[1..], i - 1);
    }
  }

  lemma LowerHasNoUpper(s: string, i: int)
    requires 0 <= i < |s|
    ensures !IsUpper(Lower(s)[i])
  {
    LowerAt(s, i);
  }

  lemma LowerIdempotent(s: string)
    ensures Lower(Lower(s)) == Lower(s)
  {
    forall i | 0 <= i < |s|
      ensures Lower(Lower(s))[i] == Lower(s)[i]
    {
      LowerAt(s, i);
      LowerAt(Lower(s), i);
    }
  }

  /** The characters String.trim drops: everything up to and including the space. */
  predicate IsTrimmed(c: char) { c <= ' ' }

  /** String.trim's left half: drop leading characters up to the space. */
  function TrimStart(s: string): (r: string)
    ensures |r| <= |s| && r == s[|s| - |r|..]
  {
    if |s| > 0 && IsTrimmed(s[0]) then TrimStart(s[1..]) else s
  }

  /** TrimStart drops only characters up to the space, and stops at the first
      other one. */
  lemma {:induction false} TrimStartDrops(s: string)
    ensures var r := TrimStart(s);
      && (forall i :: 0 <= i < |s| - |r| ==> IsTrimmed(s[i]))
      && (|r| > 0 ==> !IsTrimmed(r[0]))
  {
    if |s| > 0 && IsTrimmed(s[0]) {
      TrimStartDrops(s[1..]);
    }
  }

  /** String.trim's right half: drop trailing characters up to the space. */
  function TrimEnd(s: string): (r: string)
    ensures |r| <= |s| && r == s[..|r|]
  {
    if |s| > 0 && IsTrimmed(s[|s| - 1]) then TrimEnd(s[..|s| - 1]) else s
  }

  /** TrimEnd drops only characters up to the space, and stops at the last
      other one. */
  lemma {:induction false} TrimEndDrops(s: string)
    ensures var r := TrimEnd(s);
      && (forall i :: |r| <= i < |s| ==> IsTrimmed(s[i]))
      && (|r| > 0 ==> !IsTrimmed(r[|r| - 1]))
  {
    if |s| > 0 && IsTrimmed(s[|s| - 1]) {
      TrimEndDrops(s[..|s| - 1]);
    }
  }

  /** String.trim. */
  function Trim(s: string): string
  {
    TrimEnd(TrimStart(s))
  }

  /** String.startsWith. */
  predicate StartsWith(s: string, prefix: string)
  {
    |prefix| <= |s| && s[..|prefix|] == prefix
  }

  predicate OccursAt(s: string, sub: string, i: nat)
  {
    i + |sub| <= |s| && s[i..i + |sub|] == sub
  }

  /** String.contains: some window of `s` equals `sub` (the empty string is in every string). */
  predicate Contains(s: string, sub: string)
  {
    exists i: nat :: i <= |s| && OccursAt(s, sub, i)
  }

  /** A string holding an upper-case ASCII letter is never inside a lower-cased string. */
  lemma UpperNeverInLower(text: string, sub: string, j: int)
    requires 0 <= j < |sub| && IsUpper(sub[j])
    ensures !Contains(Lower(text), sub)
  {
    var lowered := Lower(text);
    forall i: nat | i <= |lowered|
      ensures !OccursAt(lowered, sub, i)
    {
      if i + |sub| <= |lowered| {
        LowerHasNoUpper(text, i + j);
        assert lowered[i..i + |sub|][j] != sub[j];
      }
    }
  }
}
