/** Options, and the ASCII part of Python's text helpers: `strip`, `lower`, `upper` and `split`. */
module Text {

  datatype Option<+T> = None | Some(value: T)
  {
    function Get(default: T): T {
      if Some? then value else default
    }
  }

  predicate IsSpace(c: char) {
    c == ' ' || ('\t' <= c <= '\r') || ('\U{1c}' <= c <= '\U{1f}')
  }

  /** The ASCII characters that Python takes for blanks. */
  lemma SpacesAre(c: char)
    ensures IsSpace(c) <==> c as int in {9, 10, 11, 12, 13, 28, 29, 30, 31, 32}
  {}

  function StripLeft(s: string): (r: string)
    ensures r == "" || !IsSpace(r[0])
  {
    if s != "" && IsSpace(s[0]) then StripLeft(s[1..]) else s
  }

  function StripRight(s: string): (r: string)
    ensures r <= s
    ensures r == "" || !IsSpace(r[|r| - 1])
  {
    if s != "" && IsSpace(s[|s| - 1]) then StripRight(s[..|s| - 1]) else s
  }

  /** True of exactly the texts that `strip` leaves alone. */
  predicate Stripped(s: string) {
    s == "" || (!IsSpace(s[0]) && !IsSpace(s[|s| - 1]))
  }

  function Strip(s: string): (r: string)
    ensures Stripped(r)
    ensures Stripped(s) ==> r == s
  {
    StripRight(StripLeft(s))
  }

  predicate AllSpaces(s: string) {
    forall i | 0 <= i < |s| :: IsSpace(s[i])
  }

  lemma {:induction false} LeftStripped(s: string) returns (before: string)
    ensures AllSpaces(before) && s == before + StripLeft(s)
  {
    if s != "" && IsSpace(s[0]) {
      var more := LeftStripped(s[1..]);
      before := [s[0]] + more;
    } else {
      before := "";
    }
  }

  lemma {:induction false} RightStripped(s: string) returns (after: string)
    ensures AllSpaces(after) && s == StripRight(s) + after
  {
    if s != "" && IsSpace(s[|s| - 1]) {
      var more := RightStripped(s[..|s| - 1]);
      after := more + [s[|s| - 1]];
    } else {
      after := "";
    }
  }

  /** Stripping takes away blanks at the two ends and nothing else; what is left neither starts nor ends with one. */
  lemma OnlyBlanksStripped(s: string) returns (before: string, after: string)
    ensures AllSpaces(before) && AllSpaces(after) && s == before + Strip(s) + after && Stripped(Strip(s))
  {
    before := LeftStripped(s);
    after := RightStripped(StripLeft(s));
    assert before + (Strip(s) + after) == before + Strip(s) + after;
  }

  lemma BlankStripsToNothing(s: string)
    ensures Strip(s) == "" <==> AllSpaces(s)
  {
    if AllSpaces(s) {
      BlankStripped(s);
    }
    if Strip(s) == "" {
      var before, after := OnlyBlanksStripped(s);
      assert s == before + after;
    }
  }

  lemma {:induction false} StripLeftOf(before: string, s: string)
    requires AllSpaces(before) && (s == "" || !IsSpace(s[0]))
    ensures StripLeft(before + s) == s
  {
    if before == "" {
      assert before + s == s;
    } else {
      assert (before + s)[1..] == before[1..] + s;
      StripLeftOf(before[1..], s);
    }
  }

  lemma {:induction false} StripRightOf(s: string, after: string)
    requires AllSpaces(after) && (s == "" || !IsSpace(s[|s| - 1]))
    ensures StripRight(s + after) == s
  {
    if after == "" {
      assert s + after == s;
    } else {
      assert (s + after)[..|s + after| - 1] == s + after[..|after| - 1];
      StripRightOf(s, after[..|after| - 1]);
    }
  }

  lemma {:induction false} BlankStripped(s: string)
    requires AllSpaces(s)
    ensures StripLeft(s) == ""
  {
    if s != "" {
      BlankStripped(s[1..]);
    }
  }

  /** Blanks around a text make no difference. */
  lemma StripOf(before: string, s: string, after: string)
    requires AllSpaces(before) && AllSpaces(after) && Stripped(s)
    ensures Strip(before + s + after) == s
  {
    assert before + s + after == before + (s + after);
    if s == "" {
      BlankStripped(before + s + after);
    } else {
      StripLeftOf(before, s + after);
      StripRightOf(s, after);
    }
  }

  function LowerChar(c: char): char {
    if 'A' <= c <= 'Z' then (c as int + 32) as char else c
  }

  function UpperChar(c: char): char {
    if 'a' <= c <= 'z' then (c as int - 32) as char else c
  }

  function Lower(s: string): string {
    seq(|s|, i requires 0 <= i < |s| => LowerChar(s[i]))
  }

  function Upper(s: string): string {
    seq(|s|, i requires 0 <= i < |s| => UpperChar(s[i]))
  }

  /** A letter keeps its place in the alphabet; any other character stays as it is. */
  lemma CasesOfLetters(c: char)
    ensures 'A' <= c <= 'Z' ==> LowerChar(c) as int - 'a' as int == c as int - 'A' as int
    ensures 'a' <= c <= 'z' ==> UpperChar(c) as int - 'A' as int == c as int - 'a' as int
    ensures !('A' <= c <= 'Z') ==> LowerChar(c) == c
    ensures !('a' <= c <= 'z') ==> UpperChar(c) == c
  {}

  lemma CaseOfEach(s: string, i: nat)
    requires i < |s|
    ensures |Lower(s)| == |Upper(s)| == |s|
    ensures Lower(s)[i] == LowerChar(s[i]) && Upper(s)[i] == UpperChar(s[i])
  {}

  /** Normalising a normalised text again changes nothing, in either letter case. */
  lemma NormalisedTwice(s: string)
    ensures Lower(Strip(Lower(Strip(s)))) == Lower(Strip(s))
    ensures Upper(Strip(Upper(Strip(s)))) == Upper(Strip(s))
  {
    assert Stripped(Lower(Strip(s))) && Stripped(Upper(Strip(s)));
  }

  function Split(s: string, separator: char): (parts: seq<string>)
    ensures |parts| >= 1
  {
    if s == "" then [""]
    else
      var rest := Split(s[1..], separator);
      if s[0] == separator then [""] + rest else [[s[0]] + rest[0]] + rest[1..]
  }

  /** The pieces of `s` that are not blank, each stripped, in order. */
  function NonBlankParts(pieces: seq<string>): (parts: seq<string>)
    ensures forall p :: p in parts ==> p != "" && Stripped(p)
  {
    if pieces == [] then []
    else
      var head := Strip(pieces[0]);
      (if head == "" then [] else [head]) + NonBlankParts(pieces[1..])
  }

  lemma {:induction false} SplitPlain(s: string, separator: char)
    requires separator !in s
    ensures Split(s, separator) == [s]
  {
    if s != "" {
      SplitPlain(s[1..], separator);
      assert s == [s[0]] + s[1..];
    }
  }

  /** Together with `SplitPlain` this says what splitting is. */
  lemma {:induction false} SplitAt(left: string, separator: char, right: string)
    ensures Split(left + [separator] + right, separator) == Split(left, separator) + Split(right, separator)
  {
    var all := left + [separator] + right;
    if left == "" {
      assert all[1..] == right;
    } else {
      assert all[1..] == left[1..] + [separator] + right && all[0] == left[0];
      SplitAt(left[1..], separator, right);
    }
  }

  lemma PartOfOne(piece: string)
    ensures NonBlankParts([piece]) == if Strip(piece) == "" then [] else [Strip(piece)]
  {
    assert [piece][1..] == [];
  }

  /** Together with `PartOfOne` this says what the parts are. */
  lemma {:induction false} PartsJoined(left: seq<string>, right: seq<string>)
    ensures NonBlankParts(left + right) == NonBlankParts(left) + NonBlankParts(right)
  {
    if left == [] {
      assert left + right == right;
    } else {
      assert (left + right)[0] == left[0] && (left + right)[1..] == left[1..] + right;
      PartsJoined(left[1..], right);
    }
  }
}
