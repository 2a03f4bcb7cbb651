/** The titles of the todo-app adapters: a prefix put before a value, and taken off again. */
module Titles {
  import opened Options

  const TITLE_PREFIX: string := "Sample Title "

  /** The two `trim`s differ in what they count as blank. */
  datatype Platform = Java | TypeScript

  predicate Blank(p: Platform, c: char) {
    match p
    case Java => c <= ' '
    case TypeScript =>
      || '\U{0009}' <= c <= '\U{000D}'
      || c == ' '
      || c == '\U{00A0}'
      || c == '\U{1680}'
      || '\U{2000}' <= c <= '\U{200A}'
      || c == '\U{2028}'
      || c == '\U{2029}'
      || c == '\U{202F}'
      || c == '\U{205F}'
      || c == '\U{3000}'
      || c == '\U{FEFF}'
  }

  function TrimStart(p: Platform, s: string): string {
    if s == "" || !Blank(p, s[0]) then s else TrimStart(p, s[1..])
  }

  function TrimEnd(p: Platform, s: string): string {
    if s == "" || !Blank(p, s[|s| - 1]) then s else TrimEnd(p, s[..|s| - 1])
  }

  function Trim(p: Platform, s: string): string {
    TrimEnd(p, TrimStart(p, s))
  }

  /** `getValueFromTitle`; a missing title is treated as empty. */
  function GetValueFromTitle(p: Platform, originalTitle: Option<string>): string {
    var title := if originalTitle.Some? then Trim(p, originalTitle.value) else "";
    if TITLE_PREFIX <= title then Trim(p, title[|TITLE_PREFIX|..]) else title
  }

  ghost predicate HasText(p: Platform, s: string) {
    exists i | 0 <= i < |s| :: !Blank(p, s[i])
  }

  lemma {:induction false} TrimEndConcat(p: Platform, a: string, b: string)
    ensures TrimEnd(p, a + b) == if HasText(p, b) then a + TrimEnd(p, b) else TrimEnd(p, a)
  {
    if b == "" {
      assert a + b == a;
    } else {
      var front, last := b[..|b| - 1], b[|b| - 1];
      assert (a + b)[..|a + b| - 1] == a + front;
      TrimEndConcat(p, a, front);
      if Blank(p, last) && HasText(p, b) {
        var i :| 0 <= i < |b| && !Blank(p, b[i]);
        assert front[i] == b[i];
      } else if Blank(p, last) {
        assert forall i | 0 <= i < |front| :: front[i] == b[i];
      }
    }
  }

  lemma {:induction false} TrimEndKeepsText(p: Platform, s: string)
    ensures TrimEnd(p, TrimEnd(p, s)) == TrimEnd(p, s) <= s
    ensures HasText(p, s) <==> HasText(p, TrimEnd(p, s))
    ensures TrimEnd(p, s) != "" <==> HasText(p, s)
  {
    if s != "" && Blank(p, s[|s| - 1]) {
      var front := s[..|s| - 1];
      TrimEndKeepsText(p, front);
      if HasText(p, s) {
        var i :| 0 <= i < |s| && !Blank(p, s[i]);
        assert front[i] == s[i];
      }
      if HasText(p, front) {
        var i :| 0 <= i < |front| && !Blank(p, front[i]);
        assert s[i] == front[i];
      }
    }
  }

  /** Trimming the end first changes nothing. */
  lemma {:induction false} TrimAfterTrimEnd(p: Platform, s: string)
    ensures Trim(p, TrimEnd(p, s)) == Trim(p, s)
    decreases |s|
  {
    TrimEndKeepsText(p, s);
    if s != "" && Blank(p, s[0]) {
      var rest := s[1..];
      TrimAfterTrimEnd(p, rest);
      assert s == s[..1] + rest;
      TrimEndConcat(p, s[..1], rest);
      if HasText(p, rest) {
        assert (s[..1] + TrimEnd(p, rest))[1..] == TrimEnd(p, rest);
      } else {
        TrimEndKeepsText(p, rest);
        assert s[..1][..0] == "";
        assert TrimEnd(p, s) == "";
      }
    } else if s != "" {
      assert TrimEnd(p, s) != "" && TrimEnd(p, s)[0] == s[0] by {
        assert !Blank(p, s[0]);
      }
    }
  }

  lemma {:induction false} TrimOfBlank(p: Platform, s: string)
    requires !HasText(p, s)
    ensures Trim(p, s) == ""
  {
    if s == "" {
    } else {
      assert Blank(p, s[0]);
      assert forall i | 0 <= i < |s[1..]| :: s[1..][i] == s[i + 1];
      TrimOfBlank(p, s[1..]);
    }
  }

  // ----- What trimming means -----

  ghost predicate BlankBetween(p: Platform, s: string, from: nat, to: nat)
    requires to <= |s|
  {
    forall x | from <= x < to :: Blank(p, s[x])
  }

  /** `s[i..j]` is what is left of `s` without the blanks at its ends. */
  ghost predicate TrimsTo(p: Platform, s: string, i: nat, j: nat) {
    && i <= j <= |s|
    && BlankBetween(p, s, 0, i) && BlankBetween(p, s, j, |s|)
    && (i < j ==> !Blank(p, s[i]) && !Blank(p, s[j - 1]))
  }

  ghost predicate IsTrimmed(p: Platform, s: string, u: string) {
    exists i, j | 0 <= i <= j <= |s| :: TrimsTo(p, s, i, j) && u == s[i..j]
  }

  lemma {:induction false} TrimStartDrops(p: Platform, s: string) returns (i: nat)
    ensures i <= |s| && TrimStart(p, s) == s[i..]
    ensures BlankBetween(p, s, 0, i) && (i < |s| ==> !Blank(p, s[i]))
  {
    if s == "" || !Blank(p, s[0]) {
      i := 0;
    } else {
      var rest := TrimStartDrops(p, s[1..]);
      i := rest + 1;
      assert s[1..][rest..] == s[i..];
      assert forall x | 1 <= x < i :: s[x] == s[1..][x - 1];
    }
  }

  lemma {:induction false} TrimEndDrops(p: Platform, s: string) returns (j: nat)
    ensures j <= |s| && TrimEnd(p, s) == s[..j]
    ensures BlankBetween(p, s, j, |s|) && (j > 0 ==> !Blank(p, s[j - 1]))
  {
    if s == "" || !Blank(p, s[|s| - 1]) {
      j := |s|;
    } else {
      var front := s[..|s| - 1];
      j := TrimEndDrops(p, front);
      assert front[..j] == s[..j];
      assert forall x | j <= x < |front| :: s[x] == front[x];
    }
  }

  lemma TrimDrops(p: Platform, s: string) returns (i: nat, j: nat)
    ensures TrimsTo(p, s, i, j) && Trim(p, s) == s[i..j]
  {
    i := TrimStartDrops(p, s);
    var rest := s[i..];
    var length := TrimEndDrops(p, rest);
    j := i + length;
    assert rest[..length] == s[i..j];
    assert forall x | j <= x < |s| :: s[x] == rest[x - i];
    if i < j {
      assert rest[length - 1] == s[j - 1];
    }
  }

  lemma TrimsOnce(p: Platform, s: string, i: nat, j: nat, i': nat, j': nat)
    requires TrimsTo(p, s, i, j) && TrimsTo(p, s, i', j')
    ensures s[i..j] == s[i'..j']
  {
    if i < j {
      TextIsKept(p, s, i, i', j');
      TextIsKept(p, s, j - 1, i', j');
    }
    if i' < j' {
      TextIsKept(p, s, i', i, j);
      TextIsKept(p, s, j' - 1, i, j);
    }
  }

  lemma TextIsKept(p: Platform, s: string, x: nat, i: nat, j: nat)
    requires x < |s| && !Blank(p, s[x]) && TrimsTo(p, s, i, j)
    ensures i <= x < j
  {
  }

  /** `trim` removes all blanks at both ends and nothing else. */
  lemma TrimIs(p: Platform, s: string, u: string)
    ensures IsTrimmed(p, s, u) <==> u == Trim(p, s)
  {
    var i, j := TrimDrops(p, s);
    if IsTrimmed(p, s, u) {
      var i', j' :| 0 <= i' <= j' <= |s| && TrimsTo(p, s, i', j') && u == s[i'..j'];
      TrimsOnce(p, s, i, j, i', j');
    }
  }

  /** Decoding, for every title: a missing title is empty; otherwise, with `t` the title without the
      blanks at its ends, the value is `t` itself if that does not start with the prefix, and else
      what follows the prefix without the blanks at its ends. */
  lemma DecodeEveryTitle(p: Platform, title: Option<string>, t: string, v: string)
    requires title.Some? ==> IsTrimmed(p, title.value, t)
    ensures GetValueFromTitle(p, title) == v
            <==> if title.None? then v == ""
                 else if TITLE_PREFIX <= t then IsTrimmed(p, t[|TITLE_PREFIX|..], v)
                 else v == t
  {
    if title.Some? {
      TrimIs(p, title.value, t);
      if TITLE_PREFIX <= t {
        TrimIs(p, t[|TITLE_PREFIX|..], v);
      }
    }
  }

  /** Decoding an encoded value gives its trimmed form exactly when it has a character that is not
      blank; otherwise the prefix has lost its last blank and comes back as the value. */
  lemma DecodeUndoesEncode(p: Platform, v: string)
    ensures IsTrimmed(p, v, GetValueFromTitle(p, Some(TITLE_PREFIX + v))) <==> HasText(p, v)
    ensures !HasText(p, v) ==> GetValueFromTitle(p, Some(TITLE_PREFIX + v)) == "Sample Title"
  {
    var title := TITLE_PREFIX + v;
    TrimIs(p, v, GetValueFromTitle(p, Some(title)));
    assert title[0] == 'S';
    TrimEndConcat(p, TITLE_PREFIX, v);
    if HasText(p, v) {
      assert Trim(p, title)[|TITLE_PREFIX|..] == TrimEnd(p, v);
      TrimAfterTrimEnd(p, v);
    } else {
      assert TITLE_PREFIX[|TITLE_PREFIX| - 1] == ' ';
      assert TITLE_PREFIX[..|TITLE_PREFIX| - 1] == "Sample Title";
      assert "Sample Title"[|"Sample Title"| - 1] == 'e';
      assert TrimEnd(p, "Sample Title") == "Sample Title";
      TrimOfBlank(p, v);
    }
  }
}
