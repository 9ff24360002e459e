/** The string operations the policy uses, on the characters it uses them with (ASCII case). */
module Strings {
  datatype Option<+T> = None | Some(value: T)

  /** The position of the first `c` in `s`, or |s|. */
  function IndexOf(s: string, c: char): (i: nat)
    ensures i <= |s| && (i < |s| ==> s[i] == c) && c !in s[..i]
  {
    if s == [] || s[0] == c then 0
    else
      var i := 1 + IndexOf(s[1..], c);
      assert s[..i] == [s[0]] + s[1..][..i - 1];
      i
  }

  /** strings.Split on a single character; never empty. */
  function Split(s: string, c: char): (parts: seq<string>)
    ensures parts != []
    decreases |s|
  {
    var i := IndexOf(s, c);
    if i == |s| then [s] else [s[..i]] + Split(s[i + 1..], c)
  }

  function TrimRight(s: string, c: char): string {
    if s == [] || s[|s| - 1] != c then s else TrimRight(s[..|s| - 1], c)
  }

  predicate IsSpace(c: char) {
    c in {' ', '\t', '\n', '\r', '\U{0B}', '\U{0C}'}
  }

  function TrimSpace(s: string): string {
    if s == [] then s
    else if IsSpace(s[0]) then TrimSpace(s[1..])
    else if IsSpace(s[|s| - 1]) then TrimSpace(s[..|s| - 1])
    else s
  }

  function UpperChar(c: char): char {
    if 'a' <= c <= 'z' then c - 'a' + 'A' else c
  }

  function ToUpper(s: string): string {
    seq(|s|, i requires 0 <= i < |s| => UpperChar(s[i]))
  }

  function LowerChar(c: char): char {
    if 'A' <= c <= 'Z' then c - 'A' + 'a' else c
  }

  function ToLower(s: string): string {
    seq(|s|, i requires 0 <= i < |s| => LowerChar(s[i]))
  }

  function Replace(s: string, from: char, to: char): string {
    seq(|s|, i requires 0 <= i < |s| => if s[i] == from then to else s[i])
  }

  predicate Contains(s: string, part: string) {
    part <= s || (s != [] && Contains(s[1..], part))
  }

  predicate HasSuffix(s: string, suffix: string) {
    |suffix| <= |s| && s[|s| - |suffix|..] == suffix
  }

  // ---- What those operations mean ----

  function Joined(parts: seq<string>, c: char): string
    requires parts != []
  {
    if |parts| == 1 then parts[0] else parts[0] + [c] + Joined(parts[1..], c)
  }

  predicate Free(parts: seq<string>, c: char) {
    forall i | 0 <= i < |parts| :: c !in parts[i]
  }

  /** Splitting cuts at every separator, and only there. */
  lemma {:induction false} SplitJoined(parts: seq<string>, c: char)
    requires parts != [] && Free(parts, c)
    ensures Split(Joined(parts, c), c) == parts
  {
    var s := Joined(parts, c);
    if |parts| == 1 {
      IndexOfNone(s, c);
    } else {
      var rest := Joined(parts[1..], c);
      IndexOfAfter(parts[0], c, rest);
      assert s[..|parts[0]|] == parts[0] && s[|parts[0]| + 1..] == rest;
      SplitJoined(parts[1..], c);
      assert parts == [parts[0]] + parts[1..];
    }
  }

  lemma {:induction false} IndexOfNone(s: string, c: char)
    requires c !in s
    ensures IndexOf(s, c) == |s|
  {
    if s != "" {
      IndexOfNone(s[1..], c);
    }
  }

  lemma {:induction false} JoinedSplit(s: string, c: char)
    ensures Joined(Split(s, c), c) == s && Free(Split(s, c), c)
    decreases |s|
  {
    var i := IndexOf(s, c);
    if i < |s| {
      JoinedSplit(s[i + 1..], c);
      var tail := Split(s[i + 1..], c);
      assert ([s[..i]] + tail)[1..] == tail;
      assert s == s[..i] + [c] + s[i + 1..];
    }
  }

  lemma {:induction false} JoinedConcat(a: seq<string>, b: seq<string>, c: char)
    requires a != [] && b != []
    ensures Joined(a + b, c) == Joined(a, c) + [c] + Joined(b, c)
  {
    if |a| == 1 {
      assert (a + b)[1..] == b;
    } else {
      JoinedConcat(a[1..], b, c);
      assert (a + b)[1..] == a[1..] + b;
    }
  }

  /** TrimRight takes off the separators at the end, all of them and nothing else. */
  lemma {:induction false} TrimRightMeaning(s: string, c: char)
    ensures TrimRight(s, c) <= s
    ensures forall i | |TrimRight(s, c)| <= i < |s| :: s[i] == c
    ensures var r := TrimRight(s, c); r == "" || r[|r| - 1] != c
  {
    if s != [] && s[|s| - 1] == c {
      TrimRightMeaning(s[..|s| - 1], c);
    }
  }

  lemma SpaceMeaning(c: char)
    ensures IsSpace(c) <==> c in " \t\n\r\U{0B}\U{0C}"
  {
  }

  /** TrimSpace keeps what lies between the first and the last character that is no space. */
  lemma {:induction false} TrimSpaceMeaning(s: string) returns (i: nat, j: nat)
    ensures i <= j <= |s| && TrimSpace(s) == s[i..j]
    ensures forall k | 0 <= k < i || j <= k < |s| :: IsSpace(s[k])
    ensures i < j ==> !IsSpace(s[i]) && !IsSpace(s[j - 1])
    decreases |s|
  {
    i, j := 0, |s|;
    if s == [] {
    } else if IsSpace(s[0]) {
      var a, b := TrimSpaceMeaning(s[1..]);
      assert s[1..][a..b] == s[a + 1..b + 1];
      assert forall k | 0 < k < |s| :: s[k] == s[1..][k - 1];
      i, j := a + 1, b + 1;
    } else if IsSpace(s[|s| - 1]) {
      i, j := TrimSpaceMeaning(s[..|s| - 1]);
      assert s[..|s| - 1][i..j] == s[i..j];
    }
  }

  /** One letter in either case, or the same character. */
  predicate SameLetter(a: char, b: char) {
    || a == b
    || ('A' <= a <= 'Z' && b as int == a as int + 32)
    || ('A' <= b <= 'Z' && a as int == b as int + 32)
  }

  predicate EqualFold(s: string, t: string) {
    |s| == |t| && forall i | 0 <= i < |s| :: SameLetter(s[i], t[i])
  }

  lemma ToUpperMeaning(s: string, word: string)
    requires forall i | 0 <= i < |word| :: !('a' <= word[i] <= 'z')
    ensures ToUpper(s) == word <==> EqualFold(s, word)
  {
    if EqualFold(s, word) {
      assert forall i | 0 <= i < |s| :: SameLetter(s[i], word[i]) && ToUpper(s)[i] == word[i];
    }
  }

  lemma SameToUpper(a: string, b: string)
    ensures ToUpper(a) == ToUpper(b) <==> EqualFold(a, b)
  {
    if ToUpper(a) == ToUpper(b) {
      forall i | 0 <= i < |a|
        ensures SameLetter(a[i], b[i])
      {
        assert ToUpper(a)[i] == ToUpper(b)[i];
      }
    }
  }

  lemma ToLowerMeaning(s: string, word: string)
    requires forall i | 0 <= i < |word| :: !('A' <= word[i] <= 'Z')
    ensures ToLower(s) == word <==> EqualFold(s, word)
  {
    if EqualFold(s, word) {
      assert forall i | 0 <= i < |s| :: SameLetter(s[i], word[i]) && ToLower(s)[i] == word[i];
    }
  }

  /** `part` stands in `s` at i, in either case. */
  predicate FoldedAt(s: string, i: nat, part: string) {
    i + |part| <= |s| && EqualFold(s[i..i + |part|], part)
  }

  predicate StandsAt(s: string, i: nat, part: string) {
    i + |part| <= |s| && s[i..i + |part|] == part
  }

  lemma {:induction false} ContainsMeaning(s: string, part: string)
    ensures Contains(s, part) <==> exists i: nat :: StandsAt(s, i, part)
  {
    if s != [] {
      ContainsMeaning(s[1..], part);
      forall i: nat | StandsAt(s, i, part) && i > 0
        ensures StandsAt(s[1..], i - 1, part)
      {
        assert s[1..][i - 1..i - 1 + |part|] == s[i..i + |part|];
      }
      forall i: nat | StandsAt(s[1..], i, part)
        ensures StandsAt(s, i + 1, part)
      {
        assert s[1..][i..i + |part|] == s[i + 1..i + 1 + |part|];
      }
      if part <= s { assert StandsAt(s, 0, part); }
    } else {
      if part <= s { assert StandsAt(s, 0, part); }
    }
  }

  // ---- Permission triples ----

  datatype Triple = Triple(area: string, action: string, resource: string)

  function JoinTriple(t: Triple): string {
    t.area + ":" + t.action + ":" + t.resource
  }

  /** strings.SplitN(x, ":", 3) when it yields three parts; the resource keeps any further colons. */
  function ParseTriple(x: string): Option<Triple> {
    var i := IndexOf(x, ':');
    if i == |x| then None
    else
      var rest := x[i + 1..];
      var j := IndexOf(rest, ':');
      if j == |rest| then None else Some(Triple(x[..i], rest[..j], rest[j + 1..]))
  }

  lemma {:induction false} IndexOfAfter(s: string, c: char, t: string)
    requires c !in s
    ensures IndexOf(s + [c] + t, c) == |s|
  {
    if s == [] {
      assert [] + [c] + t == [c] + t;
    } else {
      IndexOfAfter(s[1..], c, t);
      assert (s + [c] + t)[1..] == s[1..] + [c] + t;
    }
  }

  /** Joining is unambiguous as long as the first two names hold no colon. */
  lemma ParseJoin(t: Triple)
    requires ':' !in t.area && ':' !in t.action
    ensures ParseTriple(JoinTriple(t)) == Some(t)
  {
    var rest := t.action + ":" + t.resource;
    Reassociate(t.area, t.action, t.resource);
    CutAfter(t.area, rest);
    CutAfter(t.action, t.resource);
  }

  lemma CutAfter(front: string, rest: string)
    requires ':' !in front
    ensures var x := front + ":" + rest;
      IndexOf(x, ':') == |front| < |x| && x[..|front|] == front && x[|front| + 1..] == rest
  {
    IndexOfAfter(front, ':', rest);
  }

  lemma Reassociate(a: string, b: string, c: string)
    ensures a + ":" + (b + ":" + c) == a + ":" + b + ":" + c
  {
  }

  lemma JoinedIffParsed(x: string, t: Triple)
    requires ':' !in t.area && ':' !in t.action
    ensures x == JoinTriple(t) <==> ParseTriple(x) == Some(t)
  {
    ParseJoin(t);
  }
}
