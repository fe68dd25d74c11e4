/** The key=value fields of a line of a message (parseFields in src/net/Text.h). */
module Fields {
  import opened Options
  import opened Text

  /** parseFields splits at these, but not at line breaks. */
  predicate IsGap(c: char) {
    c == ' ' || c == '\t' || c == '\r'
  }

  function FindGap(line: string, pos: nat): (r: nat)
    requires pos <= |line|
    ensures pos <= r <= |line|
    ensures r < |line| ==> IsGap(line[r])
    ensures forall i :: pos <= i < r ==> !IsGap(line[i])
    decreases |line| - pos
  {
    if pos == |line| || IsGap(line[pos]) then pos else FindGap(line, pos + 1)
  }

  /** What stands between the gaps from a position on, empty where gaps meet. */
  function Pieces(line: string, pos: nat): seq<string>
    decreases |line| - pos
  {
    if pos >= |line| then []
    else
      var end := FindGap(line, pos);
      [line[pos..end]] + Pieces(line, end + 1)
  }

  /** The position of the first '=', the length of the word if there is none. */
  function FindEquals(word: string): (r: nat)
    ensures r <= |word|
    ensures r < |word| ==> word[r] == '='
    ensures forall i :: 0 <= i < r ==> word[i] != '='
  {
    if word == "" || word[0] == '=' then 0 else 1 + FindEquals(word[1..])
  }

  predicate IsField(word: string) {
    0 < FindEquals(word) < |word|
  }

  function Key(word: string): string
    requires IsField(word)
  {
    word[..FindEquals(word)]
  }

  function Value(word: string): string
    requires IsField(word)
  {
    word[FindEquals(word) + 1..]
  }

  /** The value of the first field with a key. */
  function Lookup(words: seq<string>, key: string): Option<string> {
    if words == [] then None
    else if IsField(words[0]) && Key(words[0]) == key then Some(Value(words[0]))
    else Lookup(words[1..], key)
  }

  /** Of repeated keys the first counts. */
  method ParseFields(line: string) returns (fields: map<string, string>)
    ensures forall key :: Get(fields, key) == Lookup(Pieces(line, 0), key)
  {
    hide Lookup, Pieces, FindGap;
    fields := map[];
    var pos := 0;
    while pos < |line|
      invariant forall key :: OrElse(Get(fields, key), Lookup(Pieces(line, pos), key)) == Lookup(Pieces(line, 0), key)
      decreases |line| - pos
    {
      var end := FindGap(line, pos);
      var word := line[pos..end];
      var eq := FindEquals(word);
      ghost var before := fields;
      FirstOfPieces(line, pos);
      if eq != |word| && eq > 0 {
        if word[..eq] !in fields {
          fields := fields[word[..eq] := word[eq + 1..]];
        }
      }
      forall key
        ensures OrElse(Get(fields, key), Lookup(Pieces(line, end + 1), key))
             == OrElse(Get(before, key), Lookup(Pieces(line, pos), key))
      {
        LookupStep(Pieces(line, pos), key);
      }
      pos := end + 1;
    }
    NoPieces(line, pos);
  }

  lemma NoPieces(line: string, pos: nat)
    requires pos >= |line|
    ensures forall key :: Lookup(Pieces(line, pos), key) == None
  {
  }

  lemma LookupStep(words: seq<string>, key: string)
    requires words != []
    ensures Lookup(words, key)
         == if IsField(words[0]) && Key(words[0]) == key then Some(Value(words[0])) else Lookup(words[1..], key)
  {
  }

  lemma FirstOfPieces(line: string, pos: nat)
    requires pos < |line|
    ensures var end := FindGap(line, pos);
      Pieces(line, pos) != [] && Pieces(line, pos)[0] == line[pos..end] && Pieces(line, pos)[1..] == Pieces(line, end + 1)
  {
  }

  // ---------------------------------------------------------------- what fields mean

  predicate IsOneLine(line: string) {
    forall i :: 0 <= i < |line| ==> line[i] != '\n'
  }

  function NonEmpty(pieces: seq<string>): seq<string> {
    if pieces == [] then [] else (if pieces[0] == "" then [] else [pieces[0]]) + NonEmpty(pieces[1..])
  }

  lemma NonEmptyStep(pieces: seq<string>)
    requires pieces != []
    ensures NonEmpty(pieces) == (if pieces[0] == "" then [] else [pieces[0]]) + NonEmpty(pieces[1..])
  {
  }

  lemma {:induction false} EmptyPiecesHoldNothing(pieces: seq<string>, key: string)
    ensures Lookup(pieces, key) == Lookup(NonEmpty(pieces), key)
  {
    hide FindEquals;
    if pieces != [] {
      EmptyPiecesHoldNothing(pieces[1..], key);
      LookupStep(pieces, key);
      NonEmptyStep(pieces);
      if pieces[0] != "" {
        var words := NonEmpty(pieces);
        LookupStep(words, key);
        assert words[1..] == NonEmpty(pieces[1..]);
      } else {
        assert FindEquals(pieces[0]) == 0;
        assert [] + NonEmpty(pieces[1..]) == NonEmpty(pieces[1..]);
      }
    }
  }

  lemma GapIsSpace(line: string, pos: nat)
    requires IsOneLine(line) && pos <= |line|
    ensures FindGap(line, pos) == Find(line, pos, true)
  {
    FindIsLeast(line, pos, true, FindGap(line, pos));
  }

  lemma SkipSpace(line: string, pos: nat)
    requires pos < |line| && IsSpace(line[pos])
    ensures WordsAt(line, pos) == WordsAt(line, pos + 1)
  {
    FindIsLeast(line, pos, false, Find(line, pos + 1, false));
  }

  /** On a single line the pieces that are not empty are the words that splitWords finds. */
  lemma {:induction false} PiecesAreWords(line: string, pos: nat)
    requires IsOneLine(line) && pos <= |line|
    ensures NonEmpty(Pieces(line, pos)) == WordsAt(line, pos)
    decreases |line| - pos
  {
    hide WordsAt, Find, FindGap, Pieces, NonEmpty;
    if pos == |line| {
      AtEnd(line);
    } else {
      var end := FindGap(line, pos);
      FirstOfPieces(line, pos);
      NonEmptyStep(Pieces(line, pos));
      if end < |line| {
        PiecesAreWords(line, end + 1);
      } else {
        NothingAfter(line, end + 1);
      }
      NextWord(line, pos, end);
    }
  }

  lemma NothingAfter(line: string, pos: nat)
    requires pos >= |line|
    ensures NonEmpty(Pieces(line, pos)) == []
  {
  }

  lemma AtEnd(line: string)
    ensures WordsAt(line, |line|) == [] && NonEmpty(Pieces(line, |line|)) == []
  {
  }

  lemma NextWord(line: string, pos: nat, end: nat)
    requires IsOneLine(line) && pos < |line| && end == FindGap(line, pos)
    ensures var rest := if end < |line| then WordsAt(line, end + 1) else [];
      WordsAt(line, pos) == if pos == end then rest else [line[pos..end]] + rest
  {
    GapIsSpace(line, pos);
    if end < |line| { SkipSpace(line, end); } else { AtEnd(line); }
    if pos < end {
      FindIsLeast(line, pos, false, pos);
      WordsStep(line, pos, pos, end, line[pos..end], WordsAt(line, end));
    }
  }

  /** A field as a provider writes it. */
  datatype Field = Field(key: string, value: string)

  predicate IsWritable(f: Field) {
    && IsWord(f.key) && '=' !in f.key
    && forall i :: 0 <= i < |f.value| ==> !IsSpace(f.value[i])
  }

  function Written(f: Field): string {
    f.key + "=" + f.value
  }

  lemma WrittenReadsBack(f: Field)
    requires IsWritable(f)
    ensures IsWord(Written(f)) && IsField(Written(f)) && Key(Written(f)) == f.key && Value(Written(f)) == f.value
  {
    var w, n := Written(f), |f.key|;
    assert forall i :: 0 <= i < n ==> w[i] == f.key[i];
    assert w[n] == '=' && w[n + 1..] == f.value;
  }

  function FirstValue(fields: seq<Field>, key: string): Option<string> {
    if fields == [] then None
    else if fields[0].key == key then Some(fields[0].value)
    else FirstValue(fields[1..], key)
  }

  /** The parts of a line are these fields. */
  predicate Writes(parts: seq<Part>, fields: seq<Field>) {
    |parts| == |fields| && forall k :: 0 <= k < |parts| ==> IsWritable(fields[k]) && parts[k].word == Written(fields[k])
  }

  lemma {:induction false} LookupInParts(parts: seq<Part>, fields: seq<Field>, key: string)
    requires Writes(parts, fields)
    ensures Lookup(WordsOf(parts), key) == FirstValue(fields, key)
    decreases |parts|
  {
    if parts != [] {
      WrittenReadsBack(fields[0]);
      LookupInParts(parts[1..], fields[1..], key);
      assert WordsOf(parts)[1..] == WordsOf(parts[1..]);
    }
  }

  /** Fields written on a line, with any blanks around them, read back: of repeated keys the first counts. */
  lemma FieldsReadBack(blanks: string, parts: seq<Part>, fields: seq<Field>, key: string)
    requires IsBlank(blanks) && WellJoined(parts) && Writes(parts, fields) && IsOneLine(blanks + Joined(parts))
    ensures Lookup(Pieces(blanks + Joined(parts), 0), key) == FirstValue(fields, key)
  {
    var line := blanks + Joined(parts);
    EmptyPiecesHoldNothing(Pieces(line, 0), key);
    PiecesAreWords(line, 0);
    SplitJoined(blanks, parts);
    LookupInParts(parts, fields, key);
  }
}
