/** The splitting and joining of strings in kernel/sstream.hpp. */
module Tokens {
  import opened Strings
  import opened StringStream

  predicate StartsWith(s: string, sep: string) { |sep| <= |s| && s[..|sep|] == sep }

  /** The position strstr finds in what is left of a string: it looks no further than a zero
      character. A separator that is not found is at the end. */
  function Find(s: string, sep: string): (i: nat)
    ensures i == |s| || (i + |sep| <= |s| && s[i..i + |sep|] == sep)
  {
    if s == "" then 0
    else if StartsWith(s, sep) then 0
    else if s[0] == '\0' then |s|
    else
      var i := Find(s[1..], sep);
      assert i < |s| - 1 ==> s[i + 1..i + 1 + |sep|] == s[1..][i..i + |sep|];
      1 + i
  }

  predicate NoZero(s: string) { s == "" || (s[0] != '\0' && NoZero(s[1..])) }

  /** The separator is at a place, and no zero character hides it. */
  predicate SeenAt(s: string, sep: string, j: nat)
    requires j <= |s|
  {
    StartsWith(s[j..], sep) && NoZero(s[..j])
  }

  lemma {:induction false} SeenFurther(s: string, sep: string, j: nat)
    requires 0 < j <= |s|
    ensures SeenAt(s, sep, j) <==> s[0] != '\0' && SeenAt(s[1..], sep, j - 1)
  {
    assert s[j..] == s[1..][j - 1..] && s[..j][1..] == s[1..][..j - 1];
  }

  /** What is found is the first separator that no zero character hides; the end means there is none. */
  lemma {:induction false} FindIsFirst(s: string, sep: string)
    requires sep != ""
    ensures Find(s, sep) < |s| ==> SeenAt(s, sep, Find(s, sep))
    ensures forall j | 0 <= j <= |s| && SeenAt(s, sep, j) :: Find(s, sep) <= j < |s|
  {
    if s != "" {
      assert s[0..] == s;
      FindIsFirst(s[1..], sep);
      if !StartsWith(s, sep) && s[0] != '\0' { SeenFurther(s, sep, Find(s, sep)); }
      forall j | 0 <= j <= |s| && SeenAt(s, sep, j)
        ensures Find(s, sep) <= j < |s|
      {
        if j > 0 { SeenFurther(s, sep, j); }
      }
    }
  }

  /** The tokens of what is left of a string; an empty rest has none. */
  function Tokenize(sep: string, s: string): seq<string>
    requires sep != ""
    decreases |s|
  {
    if s == "" then []
    else
      var i := Find(s, sep);
      if i == |s| then [s] else [s[..i]] + Tokenize(sep, s[i + |sep|..])
  }

  function Joined(sep: string, l: seq<string>): string {
    if l == [] then "" else l[0] + (if |l| > 1 then sep else "") + Joined(sep, l[1..])
  }

  method JoinOnto(sep: string, l: seq<string>, os: OStringStream)
    requires os.Valid()
    modifies os, os.accumbuf
    ensures os.Valid() && os.Contents() == old(os.Contents()) + Joined(sep, l)
    ensures os.accumbuf == null || os.accumbuf == old(os.accumbuf) || fresh(os.accumbuf)
    decreases |l|
  {
    if l == [] { return; }
    ghost var before, rest := os.Contents(), Joined(sep, l[1..]);
    os.Write(l[0]);
    if |l| > 1 {
      os.Write(sep);
      Rejoin(before, l[0], sep);
      Rejoin(before, l[0] + sep, rest);
    } else {
      Rejoin(before, l[0], rest);
    }
    JoinOnto(sep, l[1..], os);
  }

  method Join(sep: string, l: seq<string>) returns (s: string)
    ensures s == Joined(sep, l)
  {
    var os := new OStringStream();
    JoinOnto(sep, l, os);
    s := os.Str();
  }

  // --- Splitting at a character -------------------------------------------------------------

  /** Without zero characters, and without the separator. */
  predicate Plain(s: string, c: char) { s == "" || (s[0] != '\0' && s[0] != c && Plain(s[1..], c)) }

  predicate AllPlain(l: seq<string>, c: char) { l == [] || (Plain(l[0], c) && AllPlain(l[1..], c)) }

  lemma {:induction false} FindAfterPlain(t: string, c: char, rest: string)
    requires Plain(t, c) && c != '\0'
    ensures Find(t + ([c] + rest), [c]) == |t|
  {
    if t == "" {
      assert t + ([c] + rest) == [c] + rest;
    } else {
      TailOfAppend(t, [c] + rest);
      FindAfterPlain(t[1..], c, rest);
    }
  }

  lemma {:induction false} FindNone(t: string, c: char)
    requires Plain(t, c) && c != '\0'
    ensures Find(t, [c]) == |t|
  {
    if t != "" { FindNone(t[1..], c); }
  }

  lemma {:induction false} TokenizeStep(t: string, c: char, rest: string)
    requires Plain(t, c) && c != '\0'
    ensures Tokenize([c], t + ([c] + rest)) == [t] + Tokenize([c], rest)
  {
    var s := t + ([c] + rest);
    FindAfterPlain(t, c, rest);
    assert s[..|t|] == t && s[|t| + 1..] == rest;
  }

  /** What is left when a last empty token is dropped. */
  function Kept(l: seq<string>): seq<string> { if l != [] && l[|l| - 1] == "" then l[..|l| - 1] else l }

  lemma {:induction false} KeptRest(l: seq<string>)
    requires |l| > 1
    ensures Kept(l) == [l[0]] + Kept(l[1..])
  {
    assert l[1..][..|l| - 2] == l[..|l| - 1][1..];
  }

  lemma JoinedMore(sep: string, l: seq<string>)
    requires |l| > 1
    ensures Joined(sep, l) == l[0] + (sep + Joined(sep, l[1..]))
  {
    Rejoin(l[0], sep, Joined(sep, l[1..]));
  }

  lemma JoinedOne(sep: string, t: string)
    ensures Joined(sep, [t]) == t
  {
    assert Joined(sep, [t][1..]) == "";
  }

  /** Joined tokens split into the tokens again, but for a last empty one. */
  lemma {:induction false} TokenizeJoined(c: char, l: seq<string>)
    requires c != '\0' && AllPlain(l, c)
    ensures Tokenize([c], Joined([c], l)) == Kept(l)
  {
    if |l| == 1 {
      JoinedOne([c], l[0]);
      FindNone(l[0], c);
      assert l == [l[0]];
    } else if |l| > 1 {
      JoinedMore([c], l);
      TokenizeJoined(c, l[1..]);
      TokenizeStep(l[0], c, Joined([c], l[1..]));
      KeptRest(l);
    }
  }

  // --- Joining with another separator -------------------------------------------------------

  function Replaced(s: string, c: char, d: char): string {
    if s == "" then "" else [if s[0] == c then d else s[0]] + Replaced(s[1..], c, d)
  }

  function WithoutLast(s: string, c: char): string { if s != "" && s[|s| - 1] == c then s[..|s| - 1] else s }

  lemma {:induction false} ReplacedAppend(s: string, t: string, c: char, d: char)
    ensures Replaced(s + t, c, d) == Replaced(s, c, d) + Replaced(t, c, d)
  {
    if s == "" {
      assert s + t == t;
    } else {
      TailOfAppend(s, t);
      ReplacedAppend(s[1..], t, c, d);
      Rejoin([if s[0] == c then d else s[0]], Replaced(s[1..], c, d), Replaced(t, c, d));
    }
  }

  lemma {:induction false} ReplacedPlain(s: string, c: char, d: char)
    requires Plain(s, c)
    ensures Replaced(s, c, d) == s && WithoutLast(s, c) == s
  {
    if s != "" {
      ReplacedPlain(s[1..], c, d);
      if |s| > 1 { assert s[|s| - 1] == s[1..][|s| - 2]; }
    }
  }

  lemma {:induction false} PlainIsNoZero(s: string, c: char)
    requires Plain(s, c)
    ensures NoZero(s)
  {
    if s != "" { PlainIsNoZero(s[1..], c); }
  }

  lemma {:induction false} SeparatorIsNotPlain(t: string, c: char, rest: string)
    ensures !Plain(t + ([c] + rest), c)
  {
    if t == "" {
      assert t + ([c] + rest) == [c] + rest;
    } else {
      TailOfAppend(t, [c] + rest);
      SeparatorIsNotPlain(t[1..], c, rest);
    }
  }

  /** A string is its first token, or the token, the separator and the rest. */
  lemma {:induction false} FirstToken(s: string, c: char) returns (t: string, more: bool, rest: string)
    requires NoZero(s)
    ensures Plain(t, c) && NoZero(rest)
    ensures s == if more then t + ([c] + rest) else t
    ensures more ==> |rest| < |s|
  {
    if s == "" {
      t, more, rest := "", false, "";
    } else if s[0] == c {
      t, more, rest := "", true, s[1..];
      assert s == "" + ([c] + s[1..]);
    } else {
      t, more, rest := FirstToken(s[1..], c);
      assert s == [s[0]] + s[1..];
      Rejoin([s[0]], t, [c] + rest);
      t := [s[0]] + t;
    }
  }

  lemma {:induction false} ReplacedStep(t: string, c: char, d: char, rest: string)
    requires Plain(t, c)
    ensures Replaced(WithoutLast(t + ([c] + rest), c), c, d)
         == if rest == "" then t else t + ([d] + Replaced(WithoutLast(rest, c), c, d))
  {
    var s := t + ([c] + rest);
    ReplacedPlain(t, c, d);
    if rest == "" {
      assert WithoutLast(s, c) == t;
    } else {
      var kept := WithoutLast(rest, c);
      assert s[|s| - 1] == rest[|rest| - 1];
      assert WithoutLast(s, c) == t + ([c] + kept);
      ReplacedAppend(t, [c] + kept, c, d);
      assert ([c] + kept)[1..] == kept;
    }
  }

  /** Tokens joined again give the string with the separator replaced, but for a last separator. */
  lemma {:induction false} JoinedTokens(c: char, d: char, s: string)
    requires c != '\0' && NoZero(s)
    ensures Joined([d], Tokenize([c], s)) == Replaced(WithoutLast(s, c), c, d)
    decreases |s|
  {
    var t, more, rest := FirstToken(s, c);
    if more {
      TokenizeStep(t, c, rest);
      ReplacedStep(t, c, d, rest);
      JoinedTokens(c, d, rest);
      var l := Tokenize([c], rest);
      if rest == "" { JoinedOne([d], t); } else { JoinedMore([d], [t] + l); }
    } else if s != "" {
      FindNone(s, c);
      JoinedOne([d], s);
      ReplacedPlain(s, c, d);
    }
  }

  lemma {:induction false} ReplacedSame(s: string, c: char)
    ensures Replaced(s, c, c) == s
  {
    if s != "" { ReplacedSame(s[1..], c); }
  }

  /** Joining the tokens of a string gives the string back, but for a last separator. */
  lemma {:induction false} JoinUndoesTokenize(c: char, s: string)
    requires c != '\0' && NoZero(s)
    ensures Joined([c], Tokenize([c], s)) == WithoutLast(s, c)
  {
    JoinedTokens(c, c, s);
    ReplacedSame(WithoutLast(s, c), c);
  }

  // --- Any separator ------------------------------------------------------------------------

  ghost predicate Occurs(s: string, sep: string) { exists j: nat :: j <= |s| && StartsWith(s[j..], sep) }

  ghost predicate NoneOccurs(l: seq<string>, sep: string) { l == [] || (!Occurs(l[0], sep) && NoneOccurs(l[1..], sep)) }

  lemma {:induction false} NoZeroPrefix(s: string, i: nat)
    requires NoZero(s) && i <= |s|
    ensures NoZero(s[..i])
  {
    if i > 0 {
      NoZeroPrefix(s[1..], i - 1);
      assert s[..i][1..] == s[1..][..i - 1];
    }
  }

  lemma {:induction false} NoZeroRest(s: string, i: nat)
    requires NoZero(s) && i <= |s|
    ensures NoZero(s[i..])
  {
    if i > 0 {
      NoZeroRest(s[1..], i - 1);
      assert s[1..][i - 1..] == s[i..];
    }
  }

  /** No separator starts and ends before the one that is found. */
  lemma {:induction false} NothingOccursBefore(s: string, sep: string)
    requires sep != "" && NoZero(s)
    ensures !Occurs(s[..Find(s, sep)], sep)
  {
    var i := Find(s, sep);
    FindIsFirst(s, sep);
    if j: nat :| j <= |s[..i]| && StartsWith(s[..i][j..], sep) {
      NoZeroPrefix(s, j);
      assert s[j..][..|sep|] == s[..i][j..][..|sep|];
      assert SeenAt(s, sep, j);
    }
  }

  /** The tokens joined are the string, but for a last separator. */
  predicate JoinBack(sep: string, l: seq<string>, s: string) { s == Joined(sep, l) || s == Joined(sep, l) + sep }

  lemma {:induction false} JoinBackMore(sep: string, t: string, l: seq<string>, rest: string)
    requires JoinBack(sep, l, rest) && (l == [] <==> rest == "")
    ensures JoinBack(sep, [t] + l, t + (sep + rest))
  {
    assert ([t] + l)[1..] == l;
    if l == [] {
      JoinedOne(sep, t);
      assert t + (sep + rest) == t + sep;
    } else {
      JoinedMore(sep, [t] + l);
      if rest != Joined(sep, l) {
        Rejoin(sep, Joined(sep, l), sep);
        Rejoin(t, sep + Joined(sep, l), sep);
      }
    }
  }

  lemma AtSeparator(s: string, sep: string, i: nat)
    requires i + |sep| <= |s| && s[i..i + |sep|] == sep
    ensures s == s[..i] + (sep + s[i + |sep|..])
  {
  }

  lemma NoneOccursMore(t: string, l: seq<string>, sep: string)
    requires !Occurs(t, sep) && NoneOccurs(l, sep)
    ensures NoneOccurs([t] + l, sep)
  {
    assert ([t] + l)[1..] == l;
  }

  /** Whatever the separator, tokens hold none of it, and joined they are the string, but for a last
      separator. */
  lemma {:induction false} TokensOfAny(sep: string, s: string)
    requires sep != "" && NoZero(s)
    ensures NoneOccurs(Tokenize(sep, s), sep) && JoinBack(sep, Tokenize(sep, s), s)
    decreases |s|
  {
    if s != "" {
      var i := Find(s, sep);
      NothingOccursBefore(s, sep);
      if i == |s| {
        assert s[..i] == s;
        JoinedOne(sep, s);
        NoneOccursMore(s, [], sep);
      } else {
        var rest := s[i + |sep|..];
        NoZeroRest(s, i + |sep|);
        TokensOfAny(sep, rest);
        TokenizeOfNothing(sep, rest);
        AtSeparator(s, sep, i);
        JoinBackMore(sep, s[..i], Tokenize(sep, rest), rest);
        NoneOccursMore(s[..i], Tokenize(sep, rest), sep);
      }
    }
  }

  lemma {:induction false} TokenizeOfNothing(sep: string, s: string)
    requires sep != ""
    ensures Tokenize(sep, s) == [] <==> s == ""
  {
  }
}
