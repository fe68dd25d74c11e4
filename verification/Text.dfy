/** Splitting messages into words (src/net/Text.h). */
module Text {

  /** The separators of splitWords and firstWord. */
  predicate IsSpace(c: char) {
    c == ' ' || c == '\t' || c == '\r' || c == '\n'
  }

  predicate IsWord(w: string) {
    w != "" && forall i :: 0 <= i < |w| ==> !IsSpace(w[i])
  }

  predicate IsBlank(s: string) {
    forall i :: 0 <= i < |s| ==> IsSpace(s[i])
  }

  /** The first position from `pos` on whose character is (or is not) a space; the length when there is none. */
  function Find(line: string, pos: nat, space: bool): (r: nat)
    requires pos <= |line|
    ensures pos <= r <= |line|
    ensures r < |line| ==> IsSpace(line[r]) == space
    ensures forall i :: pos <= i < r ==> IsSpace(line[i]) != space
    decreases |line| - pos
  {
    if pos == |line| || IsSpace(line[pos]) == space then pos else Find(line, pos + 1, space)
  }

  function FirstWord(line: string): string {
    line[..Find(line, 0, true)]
  }

  /** The words of a line, from a position on. */
  function WordsAt(line: string, pos: nat): seq<string>
    requires pos <= |line|
    decreases |line| - pos
  {
    var n := Find(line, pos, false);
    if n == |line| then []
    else
      var m := Find(line, n, true);
      [line[n..m]] + WordsAt(line, m)
  }

  function Words(line: string): seq<string> {
    WordsAt(line, 0)
  }

  method SplitWords(line: string) returns (words: seq<string>)
    ensures words == Words(line)
  {
    words := [];
    var pos := Find(line, 0, false);
    ghost var start := 0;  // what follows is still to be split
    while pos != |line|
      invariant start <= pos <= |line| && pos == Find(line, start, false)
      invariant Words(line) == words + WordsAt(line, start)
      decreases |line| - start
    {
      var end := Find(line, pos, true);
      words := words + [line[pos..end]];
      pos := Find(line, end, false);
      start := end;
    }
  }

  // ---------------------------------------------------------------- what splitting means

  /** A word and the blanks that follow it. */
  datatype Part = Part(word: string, blanks: string)

  function Joined(parts: seq<Part>): string {
    if parts == [] then "" else parts[0].word + parts[0].blanks + Joined(parts[1..])
  }

  /** Words with at least one separator between any two. */
  predicate WellJoined(parts: seq<Part>) {
    forall k :: 0 <= k < |parts| ==>
      && IsWord(parts[k].word) && IsBlank(parts[k].blanks)
      && (k < |parts| - 1 ==> parts[k].blanks != "")
  }

  function WordsOf(parts: seq<Part>): (r: seq<string>)
    ensures |r| == |parts|
  {
    if parts == [] then [] else [parts[0].word] + WordsOf(parts[1..])
  }

  lemma FindIsLeast(line: string, pos: nat, space: bool, r: nat)
    requires pos <= r <= |line|
    requires r < |line| ==> IsSpace(line[r]) == space
    requires forall i :: pos <= i < r ==> IsSpace(line[i]) != space
    ensures Find(line, pos, space) == r
  {
  }

  /** From position k on, line is y. */
  predicate EndsWith(line: string, k: nat, y: string) {
    |line| == k + |y| && forall i :: 0 <= i < |y| ==> line[k + i] == y[i]
  }

  lemma FindShifts(line: string, k: nat, y: string, pos: nat, space: bool)
    requires EndsWith(line, k, y) && pos <= |y|
    ensures Find(line, k + pos, space) == k + Find(y, pos, space)
  {
    var r := Find(y, pos, space);
    assert forall i :: k + pos <= i < |line| ==> line[i] == y[i - k];
    FindIsLeast(line, k + pos, space, k + r);
  }

  lemma WordsStep(line: string, pos: nat, n: nat, m: nat, w: string, rest: seq<string>)
    requires pos <= |line| && Find(line, pos, false) == n < |line| && Find(line, n, true) == m
    requires w == line[n..m] && rest == WordsAt(line, m)
    ensures WordsAt(line, pos) == [w] + rest
  {
  }

  lemma SameSlice(line: string, k: nat, y: string, n: nat, m: nat)
    requires EndsWith(line, k, y) && n <= m <= |y|
    ensures line[k + n..k + m] == y[n..m]
  {
  }

  /** The words found from a position on depend only on what follows it. */
  lemma {:induction false} WordsShift(line: string, k: nat, y: string, pos: nat)
    requires EndsWith(line, k, y) && pos <= |y|
    ensures WordsAt(line, k + pos) == WordsAt(y, pos)
    decreases |y| - pos
  {
    hide WordsAt, Find;
    FindShifts(line, k, y, pos, false);
    var n := Find(y, pos, false);
    if n < |y| {
      var m := Find(y, n, true);
      FindShifts(line, k, y, n, true);
      SameSlice(line, k, y, n, m);
      WordsShift(line, k, y, m);
      WordsStep(line, k + pos, k + n, k + m, y[n..m], WordsAt(y, m));
      WordsStep(y, pos, n, m, y[n..m], WordsAt(y, m));
    } else {
      NoWords(line, k + pos);
      NoWords(y, pos);
    }
  }

  lemma NoWords(line: string, pos: nat)
    requires pos <= |line| && Find(line, pos, false) == |line|
    ensures WordsAt(line, pos) == []
  {
  }

  lemma WordComesFirst(w: string, rest: string)
    requires IsWord(w) && (rest != "" ==> IsSpace(rest[0]))
    ensures Words(w + rest) == [w] + Words(rest)
  {
    var line := w + rest;
    FindIsLeast(line, 0, false, 0);
    FindIsLeast(line, 0, true, |w|);
    assert line[0..|w|] == w;
    WordsShift(line, |w|, rest, 0);
  }

  lemma BlanksAreSkipped(b: string, rest: string)
    requires IsBlank(b)
    ensures Words(b + rest) == Words(rest)
  {
    var line, n := b + rest, |b| + Find(rest, 0, false);
    WordsShift(line, |b|, rest, 0);
    FindShifts(line, |b|, rest, 0, false);
    FindIsLeast(line, 0, false, n);
    if n < |line| {
      var m := Find(line, n, true);
      WordsStep(line, 0, n, m, line[n..m], WordsAt(line, m));
      WordsStep(line, |b|, n, m, line[n..m], WordsAt(line, m));
    }
  }

  /** Splitting any blank-joined words gives back those words. */
  lemma {:induction false} SplitJoined(blanks: string, parts: seq<Part>)
    requires IsBlank(blanks) && WellJoined(parts)
    ensures Words(blanks + Joined(parts)) == WordsOf(parts)
    decreases |parts|
  {
    BlanksAreSkipped(blanks, Joined(parts));
    if parts != [] {
      var p := parts[0];
      var rest := p.blanks + Joined(parts[1..]);
      assert Joined(parts) == p.word + rest;
      WordComesFirst(p.word, rest);
      SplitJoined(p.blanks, parts[1..]);
    }
  }

  /** And every line is its words, joined by blanks: splitting neither drops nor invents a character of a word. */
  lemma {:induction false} EveryLineIsJoined(line: string) returns (blanks: string, parts: seq<Part>)
    ensures line == blanks + Joined(parts) && IsBlank(blanks) && WellJoined(parts)
    ensures Words(line) == WordsOf(parts)
    decreases |line|
  {
    var n := Find(line, 0, false);
    blanks, parts := line[..n], [];
    if n < |line| {
      var m := Find(line, n, true);
      var after, rest := EveryLineIsJoined(line[m..]);
      WordIsFollowed(line[m..], after, rest);
      parts := WellJoinedCons(Part(line[n..m], after), rest);
      Three(line, n, m);
      assert line == blanks + Joined(parts);
    }
    SplitJoined(blanks, parts);
  }

  lemma Three(line: string, n: nat, m: nat)
    requires n <= m <= |line|
    ensures line == line[..n] + (line[n..m] + line[m..])
  {
  }

  /** What follows a word, unless it is the last, starts with a separator. */
  lemma WordIsFollowed(line: string, after: string, rest: seq<Part>)
    requires line == after + Joined(rest) && WellJoined(rest)
    requires line != "" ==> IsSpace(line[0])
    ensures rest != [] ==> after != ""
  {
  }

  lemma WellJoinedCons(p: Part, rest: seq<Part>) returns (parts: seq<Part>)
    requires WellJoined(rest) && IsWord(p.word) && IsBlank(p.blanks) && (rest != [] ==> p.blanks != "")
    ensures WellJoined(parts) && Joined(parts) == p.word + (p.blanks + Joined(rest))
  {
    parts := [p] + rest;
    assert parts[1..] == rest;
  }
  /** The first word is the first of the words, unless the line starts with a space: then it is empty. */
  lemma FirstWordIsFirst(line: string)
    ensures if line == "" || IsSpace(line[0]) then FirstWord(line) == ""
            else Words(line) != [] && FirstWord(line) == Words(line)[0]
  {
  }
}
