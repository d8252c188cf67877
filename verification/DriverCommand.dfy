/**
Text commands of the MediaTek driver interface
(wpa_supplicant_8_lib/mediatek_driver_cmd_nl80211.c): a setter prints a command, the
dispatcher picks a handler by prefix, the handler tokenizes the buffer in place and parses
the numbers back.
 */
module DriverCommand {

  // ----- words

  const NUL := '\0'

  predicate IsSep(c: char) { c == ' ' || c == '\n' }

  /** The first separator at or after `pos`, or the length. */
  function NextSep(s: string, pos: nat): (e: nat)
    requires pos <= |s|
    ensures pos <= e <= |s| && (e < |s| ==> IsSep(s[e]))
    ensures forall j :: pos <= j < e ==> !IsSep(s[j])
    decreases |s| - pos
  {
    if pos == |s| || IsSep(s[pos]) then pos else NextSep(s, pos + 1)
  }

  /** The words from `pos` on: cut at every separator, nothing after a trailing one. */
  function Tokens(s: string, pos: nat): seq<string>
    requires pos <= |s|
    decreases |s| - pos
  {
    var e := NextSep(s, pos);
    if e + 1 >= |s| then [s[pos..e]] else [s[pos..e]] + Tokens(s, e + 1)
  }

  /** Where those words start. */
  function Starts(s: string, pos: nat): (r: seq<nat>)
    requires pos <= |s|
    ensures |r| >= 1
    decreases |s| - pos
  {
    var e := NextSep(s, pos);
    if e + 1 >= |s| then [pos] else [pos] + Starts(s, e + 1)
  }

  function CountSep(s: string, pos: nat): nat
    requires pos <= |s|
    decreases |s| - pos
  {
    if pos == |s| then 0 else (if IsSep(s[pos]) then 1 else 0) + CountSep(s, pos + 1)
  }

  /** Plain splitting at separators, for comparison. */
  function Split(s: string, pos: nat): (r: seq<string>)
    requires pos <= |s|
    ensures |r| >= 1
    decreases |s| - pos
  {
    var e := NextSep(s, pos);
    if e == |s| then [s[pos..]] else [s[pos..e]] + Split(s, e + 1)
  }

  /** All of `s`, or all but its last piece. */
  function Dropped(s: seq<string>, drop: bool): seq<string>
    requires s != []
  {
    if drop then s[..|s| - 1] else s
  }

  lemma ConsDropped(x: seq<string>, r: seq<string>, s: seq<string>, drop: bool)
    requires s != [] && r == Dropped(s, drop)
    ensures x + r == Dropped(x + s, drop)
  {
  }

  /** The words are the split pieces, with the one empty piece after a trailing separator dropped. */
  lemma {:induction false} TokensAreSplit(s: string, pos: nat)
    requires pos <= |s|
    ensures Tokens(s, pos) == Dropped(Split(s, pos), pos < |s| && (s[|s| - 1] == ' ' || s[|s| - 1] == '\n'))
    decreases |s| - pos
  {
    var e := NextSep(s, pos);
    if e + 1 < |s| {
      TokensAreSplit(s, e + 1);
      ConsDropped([s[pos..e]], Tokens(s, e + 1), Split(s, e + 1), IsSep(s[|s| - 1]));
    } else {
      LastToken(s, pos);
    }
  }

  /** The pieces with the separators put back between them. */
  function Join(pieces: seq<string>, seps: string): string
    requires |pieces| == |seps| + 1
  {
    if seps == [] then pieces[0] else pieces[0] + ([seps[0]] + Join(pieces[1..], seps[1..]))
  }

  /** No space and no newline. */
  predicate IsPiece(w: string) { forall i :: 0 <= i < |w| ==> w[i] != ' ' && w[i] != '\n' }

  /** The pieces have no space and no newline, and joined by spaces and newlines they are `s`. */
  ghost predicate Joins(pieces: seq<string>, seps: string, s: string) {
    && |pieces| == |seps| + 1 && Join(pieces, seps) == s
    && (forall i :: 0 <= i < |pieces| ==> IsPiece(pieces[i]))
    && forall i :: 0 <= i < |seps| ==> seps[i] == ' ' || seps[i] == '\n'
  }

  /** Splitting cuts at every space and newline and nowhere else. */
  lemma {:induction false} SplitJoins(s: string, pos: nat) returns (seps: string)
    requires pos <= |s|
    ensures Joins(Split(s, pos), seps, s[pos..])
    decreases |s| - pos
  {
    var e := NextSep(s, pos);
    assert IsPiece(s[pos..e]);
    if e == |s| {
      seps := [];
    } else {
      var rest := SplitJoins(s, e + 1);
      seps := [s[e]] + rest;
      JoinsCons(s[pos..e], Split(s, e + 1), s[e], rest, s[e + 1..]);
      assert s[pos..] == s[pos..e] + ([s[e]] + s[e + 1..]);
    }
  }

  lemma JoinsCons(w: string, pieces: seq<string>, sep: char, seps: string, s: string)
    requires IsPiece(w) && Joins(pieces, seps, s) && (sep == ' ' || sep == '\n')
    ensures Joins([w] + pieces, [sep] + seps, w + ([sep] + s))
  {
    assert ([w] + pieces)[1..] == pieces && ([sep] + seps)[1..] == seps;
  }

  lemma LastToken(s: string, pos: nat)
    requires pos <= |s| && NextSep(s, pos) + 1 >= |s|
    ensures Tokens(s, pos) == Dropped(Split(s, pos), pos < |s| && IsSep(s[|s| - 1]))
  {
    var e := NextSep(s, pos);
    if e + 1 == |s| {
      assert Split(s, e + 1) == [s[|s|..]];
      assert Split(s, pos) == [s[pos..e]] + [s[|s|..]];
    } else {
      assert s[pos..e] == s[pos..];
    }
  }

  lemma {:induction false} StartsCount(s: string, pos: nat)
    requires pos <= |s|
    ensures |Starts(s, pos)| == |Tokens(s, pos)| <= CountSep(s, pos) + 1
    decreases |s| - pos
  {
    var e := NextSep(s, pos);
    if e + 1 < |s| {
      StartsCount(s, e + 1);
      CountSepTo(s, pos, e);
      assert |Starts(s, pos)| == 1 + |Starts(s, e + 1)| && |Tokens(s, pos)| == 1 + |Tokens(s, e + 1)|;
    } else {
      assert |Starts(s, pos)| == 1 && |Tokens(s, pos)| == 1;
    }
  }

  lemma {:induction false} CountSepTo(s: string, pos: nat, e: nat)
    requires pos <= e <= |s|
    ensures CountSep(s, pos) >= CountSep(s, e)
    ensures e < |s| && IsSep(s[e]) ==> CountSep(s, pos) >= 1 + CountSep(s, e + 1)
    decreases e - pos
  {
    if pos < e {
      CountSepTo(s, pos + 1, e);
    }
  }

  // ----- the buffer

  /** What position `j` of the text becomes. */
  function Cut(c: char): char { if IsSep(c) then NUL else c }

  /** The buffer holds `s`, separators before `pos` overwritten, and whatever followed `s`. */
  ghost predicate CutTo(b: seq<char>, s: string, all: seq<char>, pos: nat) {
    && |s| < |all| == |b|
    && (forall j :: 0 <= j < |s| ==> b[j] == if j < pos then Cut(s[j]) else s[j])
    && (forall j :: |s| <= j < |b| ==> b[j] == all[j])
  }

  /** The C string at `off`. */
  function CString(b: seq<char>, off: nat): string
    decreases |b| - off
  {
    if off >= |b| || b[off] == NUL then [] else [b[off]] + CString(b, off + 1)
  }

  lemma {:induction false} WordAt(b: seq<char>, s: string, all: seq<char>, pos: nat)
    requires CutTo(b, s, all, |s|) && all[|s|] == NUL && NUL !in s && pos <= |s|
    ensures CString(b, pos) == s[pos..NextSep(s, pos)]
    decreases |s| - pos
  {
    if pos < |s| && !IsSep(s[pos]) {
      assert s[pos] in s;
      WordAt(b, s, all, pos + 1);
      assert s[pos..NextSep(s, pos)] == [s[pos]] + s[pos + 1..NextSep(s, pos)];
    }
  }

  /** The words of `s` can be read off the overwritten buffer at their start positions. */
  lemma {:induction false} WordsInBuffer(b: seq<char>, s: string, all: seq<char>, pos: nat, k: nat)
    requires CutTo(b, s, all, |s|) && all[|s|] == NUL && NUL !in s && pos <= |s| && k < |Tokens(s, pos)|
    ensures |Starts(s, pos)| == |Tokens(s, pos)| && CString(b, Starts(s, pos)[k]) == Tokens(s, pos)[k]
    decreases |s| - pos
  {
    StartsCount(s, pos);
    if k == 0 {
      WordAt(b, s, all, pos);
    } else {
      WordsInBuffer(b, s, all, NextSep(s, pos) + 1, k - 1);
    }
  }

  /** The inner loop of tokenize_space: on to the next separator or the end. */
  method SkipWord(cmd: array<char>, start: nat, len: nat, ghost s: string) returns (pos: nat)
    requires start <= len == |s| < cmd.Length && cmd[len] == NUL && NUL !in s
    requires forall j :: start <= j < len ==> cmd[j] == s[j]
    ensures pos == NextSep(s, start)
  {
    pos := start;
    assert forall j :: 0 <= j < len ==> s[j] != NUL;
    while cmd[pos] != '\n' && cmd[pos] != ' ' && cmd[pos] != NUL
      invariant start <= pos <= len
      invariant forall j :: start <= j < pos ==> !IsSep(s[j])
      decreases len - pos
    {
      pos := pos + 1;
      if pos >= len {
        break;
      }
    }
  }

  /** One pass of tokenize_space: note the word, go to its end, cut it off there. */
  method OneWord(cmd: array<char>, argv: array<nat>, argc: nat, pos: nat, len: nat,
                 ghost s: string, ghost all: seq<char>)
      returns (end: nat)
    requires pos <= len == |s| && argc < argv.Length && NUL !in s
    requires CutTo(cmd[..], s, all, pos) && all[len] == NUL
    modifies cmd, argv
    ensures argv[..argc + 1] == old(argv[..argc]) + [pos]
    ensures end == NextSep(s, pos) && CutTo(cmd[..], s, all, end + 1)
  {
    argv[argc] := pos;
    assert forall j :: 0 <= j < cmd.Length ==> cmd[j] == cmd[..][j];
    assert forall j :: 0 <= j < len ==> s[j] != NUL;
    end := SkipWord(cmd, pos, len, s);
    if cmd[end] != NUL {
      cmd[end] := NUL;
    }
  }

  /** The starts still to note after a word that ends at `end`. */
  ghost function StartsAfter(s: string, end: nat): seq<nat> {
    if end + 1 >= |s| then [] else Starts(s, end + 1)
  }

  lemma StartsStep(before: seq<nat>, s: string, pos: nat)
    requires pos <= |s|
    ensures before + Starts(s, pos) == before + [pos] + StartsAfter(s, NextSep(s, pos))
  {
    assert Starts(s, pos) == [pos] + StartsAfter(s, NextSep(s, pos));
    Assoc(before, [pos], StartsAfter(s, NextSep(s, pos)));
  }

  lemma Assoc(x: seq<nat>, y: seq<nat>, z: seq<nat>)
    ensures x + (y + z) == x + y + z
  {
  }

  /** The same as one more of the words of `whole`. */
  method NextWord(cmd: array<char>, argv: array<nat>, argc: nat, pos: nat, len: nat,
                  ghost s: string, ghost all: seq<char>, ghost whole: seq<nat>)
      returns (end: nat)
    requires pos <= len == |s| && argc < argv.Length && NUL !in s
    requires CutTo(cmd[..], s, all, pos) && all[len] == NUL && argv[..argc] + Starts(s, pos) == whole
    modifies cmd, argv
    ensures pos <= end <= len && CutTo(cmd[..], s, all, end + 1)
    ensures argv[..argc + 1] + StartsAfter(s, end) == whole
  {
    StartsStep(argv[..argc], s, pos);
    end := OneWord(cmd, argv, argc, pos, len, s, all);
  }

  lemma CutNone(all: seq<char>, len: nat)
    requires len < |all|
    ensures CutTo(all, all[..len], all, 0)
  {
  }

  /** Past the end of the text nothing is left to cut. */
  lemma CutAll(b: seq<char>, s: string, all: seq<char>, pos: nat)
    requires CutTo(b, s, all, pos) && |s| <= pos
    ensures CutTo(b, s, all, |s|)
  {
  }

  /** tokenize_space, in place: separators become NUL and argv gets the start of every word. */
  method TokenizeSpace(cmd: array<char>, argv: array<nat>, len: nat) returns (argc: nat)
    requires len < cmd.Length && cmd[len] == NUL && NUL !in cmd[..len]
    requires |Tokens(cmd[..len], 0)| <= argv.Length
    modifies cmd, argv
    ensures argc <= argv.Length && argv[..argc] == Starts(old(cmd[..len]), 0)
    ensures CutTo(cmd[..], old(cmd[..len]), old(cmd[..]), len)
  {
    ghost var s, all := cmd[..len], cmd[..];
    ghost var whole := Starts(s, 0);
    StartsCount(s, 0);
    CutNone(all, len);
    argc := 0;
    var pos := 0;
    assert argv[..0] + Starts(s, 0) == whole;
    while true
      invariant pos <= len && argc <= argv.Length && argv[..argc] + Starts(s, pos) == whole
      invariant CutTo(cmd[..], s, all, pos)
      decreases len - pos
    {
      assert argc < |argv[..argc] + Starts(s, pos)|;
      var end := NextWord(cmd, argv, argc, pos, len, s, all, whole);
      argc := argc + 1;
      if end + 1 >= len {
        CutAll(cmd[..], s, all, end + 1);
        return;
      }
      pos := end + 1;
    }
  }
}
