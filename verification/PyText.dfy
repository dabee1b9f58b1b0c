/** The few string operations of Python that the modelled code relies on. */
module PyText {

  /** Characters `str.strip()` removes. */
  predicate IsSpace(c: char) {
    var n := c as int;
    0x09 <= n <= 0x0D || 0x1C <= n <= 0x20 || n == 0x85 || n == 0xA0 || n == 0x1680 || 0x2000 <= n <= 0x200A ||
    n == 0x2028 || n == 0x2029 || n == 0x202F || n == 0x205F || n == 0x3000
  }

  /** Characters at which `str.splitlines()` breaks. */
  predicate IsBreak(c: char) {
    var n := c as int;
    0x0A <= n <= 0x0D || 0x1C <= n <= 0x1E || n == 0x85 || n == 0x2028 || n == 0x2029
  }

  function TrimLeft(s: string, drop: char -> bool): string {
    if s != [] && drop(s[0]) then TrimLeft(s[1..], drop) else s
  }

  function TrimRight(s: string, drop: char -> bool): string {
    if s != [] && drop(s[|s| - 1]) then TrimRight(s[..|s| - 1], drop) else s
  }

  function Trim(s: string, drop: char -> bool): string {
    TrimRight(TrimLeft(s, drop), drop)
  }

  function Strip(s: string): string {
    Trim(s, IsSpace)
  }

  function StripChar(s: string, c: char): string {
    Trim(s, x => x == c)
  }

  /** The first position of `c`, or the length when it does not occur. */
  function IndexOf(s: string, c: char): (i: nat)
    ensures i <= |s| && c !in s[..i] && (i < |s| ==> s[i] == c)
  {
    if s == [] || s[0] == c then 0 else 1 + IndexOf(s[1..], c)
  }

  /** `s.replace(pattern, "")`, left to right without overlaps. */
  function Remove(s: string, pattern: string): string
    requires pattern != []
  {
    if s == [] then []
    else if pattern <= s then Remove(s[|pattern|..], pattern)
    else [s[0]] + Remove(s[1..], pattern)
  }

  // ---- trimming ----

  /** Nothing is dropped exactly when neither end is a character to drop. */
  lemma {:induction false} TrimFixedExactly(s: string, drop: char -> bool)
    ensures Trim(s, drop) == s <==> s == [] || (!drop(s[0]) && !drop(s[|s| - 1]))
  {
    TrimShrinks(s, drop);
    if s != [] && drop(s[0]) { TrimShrinks(s[1..], drop); }
    if s != [] && !drop(s[0]) && drop(s[|s| - 1]) { TrimShrinks(s[..|s| - 1], drop); }
  }

  lemma TrimShrinks(s: string, drop: char -> bool)
    ensures |TrimLeft(s, drop)| <= |s| && |TrimRight(s, drop)| <= |s|
    ensures |Trim(s, drop)| <= |TrimLeft(s, drop)|
  {
    TrimLeftShrinks(s, drop);
    TrimRightShrinks(s, drop);
    TrimRightShrinks(TrimLeft(s, drop), drop);
  }

  lemma TrimLeftShrinks(s: string, drop: char -> bool)
    ensures |TrimLeft(s, drop)| <= |s|
  {}

  lemma TrimRightShrinks(s: string, drop: char -> bool)
    ensures |TrimRight(s, drop)| <= |s|
  {}

  /** Ends that are dropped anyway do not matter. */
  lemma {:induction false} TrimWrapped(s: string, c: char, drop: char -> bool)
    requires drop(c)
    ensures Trim([c] + s + [c], drop) == Trim(s, drop)
  {
    var w := [c] + s + [c];
    assert w[1..] == s + [c];
    TrimLeftSnoc(s, c, drop);
    var t := TrimLeft(s, drop);
    if t == [] {
      assert TrimLeft(w, drop) == [];
    } else {
      assert (t + [c])[..|t + [c]| - 1] == t;
    }
  }

  lemma {:induction false} TrimLeftSnoc(s: string, c: char, drop: char -> bool)
    requires drop(c)
    ensures TrimLeft(s + [c], drop) == if TrimLeft(s, drop) == [] then [] else TrimLeft(s, drop) + [c]
  {
    if s == [] {
      assert s + [c] == [c];
      assert [c][1..] == [];
    } else if drop(s[0]) {
      assert (s + [c])[1..] == s[1..] + [c];
      TrimLeftSnoc(s[1..], c, drop);
    }
  }

  lemma SpacesExactly(c: char)
    ensures IsSpace(c) <==>
      c in "\t\n\r \U{0B}\U{0C}\U{1C}\U{1D}\U{1E}\U{1F}\U{85}\U{A0}\U{1680}\U{2000}\U{2001}\U{2002}\U{2003}\U{2004}\U{2005}\U{2006}\U{2007}\U{2008}\U{2009}\U{200A}\U{2028}\U{2029}\U{202F}\U{205F}\U{3000}"
  {}

  lemma BreaksExactly(c: char)
    ensures IsBreak(c) <==> c in "\n\r\U{0B}\U{0C}\U{1C}\U{1D}\U{1E}\U{85}\U{2028}\U{2029}"
  {}

  // ---- what trimming comes to ----

  ghost predicate Every(s: string, drop: char -> bool) {
    forall i :: 0 <= i < |s| ==> drop(s[i])
  }

  /** `t` is what is left of `s` when characters are dropped from both ends as long as possible. */
  ghost predicate TrimsTo(s: string, t: string, drop: char -> bool) {
    && (t == [] || (!drop(t[0]) && !drop(t[|t| - 1])))
    && exists front, back :: s == front + t + back && Every(front, drop) && Every(back, drop)
  }

  lemma {:induction false} LeftDropped(s: string, drop: char -> bool) returns (front: string)
    ensures s == front + TrimLeft(s, drop) && Every(front, drop)
    ensures TrimLeft(s, drop) == [] || !drop(TrimLeft(s, drop)[0])
  {
    front := [];
    if s != [] && drop(s[0]) {
      var rest := LeftDropped(s[1..], drop);
      front := [s[0]] + rest;
      assert s == [s[0]] + s[1..];
    }
  }

  lemma {:induction false} RightDropped(s: string, drop: char -> bool) returns (back: string)
    ensures s == TrimRight(s, drop) + back && Every(back, drop)
    ensures TrimRight(s, drop) == [] || !drop(TrimRight(s, drop)[|TrimRight(s, drop)| - 1])
    ensures TrimRight(s, drop) != [] ==> TrimRight(s, drop)[0] == s[0]
  {
    back := [];
    if s != [] && drop(s[|s| - 1]) {
      var rest := RightDropped(s[..|s| - 1], drop);
      back := rest + [s[|s| - 1]];
      assert s == s[..|s| - 1] + [s[|s| - 1]];
    }
  }

  lemma TrimSplits(s: string, drop: char -> bool)
    ensures TrimsTo(s, Trim(s, drop), drop)
  {
    var front := LeftDropped(s, drop);
    var back := RightDropped(TrimLeft(s, drop), drop);
    assert s == front + Trim(s, drop) + back;
  }

  lemma {:induction false} FrontDropped(front: string, s: string, drop: char -> bool)
    requires Every(front, drop)
    ensures TrimLeft(front + s, drop) == TrimLeft(s, drop)
  {
    if front == [] {
      assert front + s == s;
    } else {
      assert (front + s)[1..] == front[1..] + s && (front + s)[0] == front[0];
      FrontDropped(front[1..], s, drop);
    }
  }

  lemma {:induction false} BackDropped(s: string, back: string, drop: char -> bool)
    requires Every(back, drop)
    ensures TrimRight(s + back, drop) == TrimRight(s, drop)
    decreases |back|
  {
    if back == [] {
      assert s + back == s;
    } else {
      var n := |back| - 1;
      assert (s + back)[..|s| + n] == s + back[..n] && (s + back)[|s| + n] == back[n];
      BackDropped(s, back[..n], drop);
    }
  }

  lemma {:induction false} AllDropped(s: string, drop: char -> bool)
    requires Every(s, drop)
    ensures TrimLeft(s, drop) == []
  {
    if s != [] { AllDropped(s[1..], drop); }
  }

  /** Trimming leaves exactly what is between the characters dropped at both ends. */
  lemma TrimExactly(s: string, t: string, drop: char -> bool)
    ensures Trim(s, drop) == t <==> TrimsTo(s, t, drop)
  {
    TrimSplits(s, drop);
    if TrimsTo(s, t, drop) {
      var front, back :| s == front + t + back && Every(front, drop) && Every(back, drop);
      assert s == front + (t + back);
      FrontDropped(front, t + back, drop);
      if t == [] {
        assert t + back == back;
        AllDropped(back, drop);
      } else {
        assert TrimLeft(t + back, drop) == t + back;
        BackDropped(t, back, drop);
      }
    }
  }

  /** The text without the blanks around it. */
  ghost predicate BlanksOff(s: string, t: string) {
    TrimsTo(s, t, IsSpace)
  }

  /** The text without the characters `c` around it. */
  ghost predicate CharsOff(s: string, t: string, c: char) {
    TrimsTo(s, t, x => x == c)
  }

  lemma StripExactly(s: string, t: string)
    ensures Strip(s) == t <==> BlanksOff(s, t)
  {
    TrimExactly(s, t, IsSpace);
  }

  lemma StripCharExactly(s: string, t: string, c: char)
    ensures StripChar(s, c) == t <==> CharsOff(s, t, c)
  {
    TrimExactly(s, t, x => x == c);
  }

  lemma Blanked(front: string, t: string, back: string)
    requires Every(front, IsSpace) && Every(back, IsSpace) && (t == [] || (!IsSpace(t[0]) && !IsSpace(t[|t| - 1])))
    ensures BlanksOff(front + t + back, t)
  {}

  lemma Charred(front: string, t: string, back: string, c: char)
    requires (forall i :: 0 <= i < |front| ==> front[i] == c) && (forall i :: 0 <= i < |back| ==> back[i] == c)
    requires t == [] || (t[0] != c && t[|t| - 1] != c)
    ensures CharsOff(front + t + back, t, c)
  {
    var drop := (x: char) => x == c;
    assert Every(front, drop) && Every(back, drop);
    assert TrimsTo(front + t + back, t, drop);
  }

  lemma NothingOff(t: string)
    ensures (t == [] || (!IsSpace(t[0]) && !IsSpace(t[|t| - 1]))) ==> BlanksOff(t, t)
    ensures forall c :: (t == [] || (t[0] != c && t[|t| - 1] != c)) ==> CharsOff(t, t, c)
  {
    assert [] + t + [] == t;
    if t == [] || (!IsSpace(t[0]) && !IsSpace(t[|t| - 1])) { Blanked([], t, []); }
    forall c | t == [] || (t[0] != c && t[|t| - 1] != c) ensures CharsOff(t, t, c) { Charred([], t, [], c); }
  }

  // ---- replacing ----

  ghost predicate Occurs(pattern: string, s: string, i: nat) {
    i <= |s| && pattern <= s[i..]
  }

  /** Nothing occurs at the first `n` positions of the text from the second one on that does not
      occur one further on in the text. */
  lemma OccursLater(pattern: string, s: string, n: nat)
    requires n + 1 <= |s| && forall i :: 0 <= i < n + 1 ==> !Occurs(pattern, s, i)
    ensures forall i :: 0 <= i < n ==> !Occurs(pattern, s[1..], i)
  {
    forall i | 0 <= i < n ensures !Occurs(pattern, s[1..], i) {
      assert !Occurs(pattern, s, i + 1) && s[i + 1..] == s[1..][i..];
    }
  }

  /** Up to its first occurrence the text is kept, the occurrence goes, and what follows is
      treated alike. */
  lemma {:induction false} RemoveAtFirst(front: string, pattern: string, rest: string)
    requires pattern != [] && forall i :: 0 <= i < |front| ==> !Occurs(pattern, front + (pattern + rest), i)
    ensures Remove(front + (pattern + rest), pattern) == front + Remove(rest, pattern)
  {
    var s := front + (pattern + rest);
    if front == [] {
      assert s == pattern + rest;
      assert s[|pattern|..] == rest;
    } else {
      assert !Occurs(pattern, s, 0) && s[0..] == s;
      OccursLater(pattern, s, |front| - 1);
      assert s[1..] == front[1..] + (pattern + rest) && s[0] == front[0];
      RemoveAtFirst(front[1..], pattern, rest);
    }
  }

  /** Without an occurrence the text is kept as it is. */
  lemma {:induction false} RemoveNothing(s: string, pattern: string)
    requires pattern != [] && forall i :: 0 <= i <= |s| ==> !Occurs(pattern, s, i)
    ensures Remove(s, pattern) == s
  {
    if s != [] {
      assert !Occurs(pattern, s, 0) && s[0..] == s;
      forall i | 0 <= i <= |s[1..]| ensures !Occurs(pattern, s[1..], i) {
        assert !Occurs(pattern, s, i + 1) && s[i + 1..] == s[1..][i..];
      }
      RemoveNothing(s[1..], pattern);
    }
  }
}
