/**
 The text commands: printed by the API (api/include/AnimatedEyes/Eyes.hpp) and parsed by the eyes
 (src/Commands.h).  How a number is written is a parameter on both sides.
 */
module Commands {
  import opened Options
  import opened Text
  import D = Decimals

  datatype CommandType = Blink | Open | BlinkRate | Style

  datatype Command = Command(
    kind: CommandType, left: bool, right: bool, level: real, holdSeconds: real, rate: Option<real>, style: string)

  const DEFAULT: Command := Command(Blink, true, true, 0.0, 0.0, None, "")

  const EMPTY: string := "Empty command"
  const UNKNOWN: string := "Unknown command"
  const STYLE_USAGE: string := "'style' needs one name"
  const NO_NUMBERS: string := "'blink' takes no numbers"
  const OPEN_USAGE: string := "'open' needs a level of 0 or more, and optionally seconds of 0 or more"
  const RATE_USAGE: string := "'blink_rate' takes an optional rate of 0 or more"

  /** How a word is read as a number, if it is one. */
  type Reader = string -> Option<real>

  predicate IsEyeWord(w: string) {
    w == "left" || w == "right" || w == "both"
  }

  /** What the arguments after the name say: numbers in order, and the last eye word. */
  datatype Arguments = Arguments(numbers: seq<real>, eye: Option<string>)

  function BadArgument(w: string): string {
    "Bad argument '" + w + "'"
  }

  /** The arguments in reverse: what the rest says, with one word put before it. */
  function Before(w: string, read: Reader, rest: Result<Arguments>): Result<Arguments> {
    if IsEyeWord(w) then
      if rest.Err? then rest
      else Ok(rest.value.(eye := if rest.value.eye.Some? then rest.value.eye else Some(w)))
    else
      match read(w)
      case None => Err(BadArgument(w))
      case Some(v) => if rest.Err? then rest else Ok(rest.value.(numbers := [v] + rest.value.numbers))
  }

  function ReadArguments(words: seq<string>, read: Reader): Result<Arguments> {
    if words == [] then Ok(Arguments([], None)) else Before(words[0], read, ReadArguments(words[1..], read))
  }

  function Chosen(eye: Option<string>): Command {
    match eye
    case None => DEFAULT
    case Some(w) => DEFAULT.(left := w != "right", right := w != "left")
  }

  /** A command's name with its arguments. */
  function Interpret(name: string, a: Arguments): Result<Command> {
    var c := Chosen(a.eye);
    var n := a.numbers;
    if name == "blink" then
      if n != [] then Err(NO_NUMBERS) else Ok(c.(kind := Blink))
    else if name == "open" then
      if n == [] || |n| > 2 || n[0] < 0.0 || (|n| == 2 && n[1] < 0.0) then
        Err(OPEN_USAGE)
      else Ok(c.(kind := Open, level := n[0], holdSeconds := if |n| == 2 then n[1] else 0.0))
    else if name == "blink_rate" then
      if a.eye.Some? || |n| > 1 || (|n| == 1 && n[0] < 0.0) then
        Err(RATE_USAGE)
      else Ok(c.(kind := BlinkRate, rate := if n == [] then None else Some(n[0])))
    else Err(UNKNOWN)
  }

  function Parsed(words: seq<string>, read: Reader): Result<Command> {
    if words == [] then Err(EMPTY)
    else if words[0] == "style" then
      if |words| != 2 then Err(STYLE_USAGE) else Ok(DEFAULT.(kind := Style, style := words[1]))
    else
      match ReadArguments(words[1..], read)
      case Err(m) => Err(m)
      case Ok(a) => Interpret(words[0], a)
  }

  /** What earlier arguments said, followed by what later ones say. */
  function Followed(numbers: seq<real>, eye: Option<string>, later: Result<Arguments>): Result<Arguments> {
    if later.Err? then later
    else Ok(Arguments(numbers + later.value.numbers, if later.value.eye.Some? then later.value.eye else eye))
  }

  lemma NothingBefore(later: Result<Arguments>)
    ensures Followed([], None, later) == later
  {
    if later.Ok? { assert [] + later.value.numbers == later.value.numbers; }
  }

  lemma OneMore(numbers: seq<real>, eye: Option<string>, w: string, read: Reader, rest: Result<Arguments>)
    ensures IsEyeWord(w) ==> Followed(numbers, eye, Before(w, read, rest)) == Followed(numbers, Some(w), rest)
    ensures !IsEyeWord(w) && read(w).Some? ==>
      Followed(numbers, eye, Before(w, read, rest)) == Followed(numbers + [read(w).value], eye, rest)
  {
    if !IsEyeWord(w) && read(w).Some? && rest.Ok? {
      assert numbers + ([read(w).value] + rest.value.numbers) == numbers + [read(w).value] + rest.value.numbers;
    }
  }

  lemma NothingAfter(numbers: seq<real>, eye: Option<string>, read: Reader)
    ensures Followed(numbers, eye, ReadArguments([], read)) == Ok(Arguments(numbers, eye))
  {
    assert numbers + [] == numbers;
  }

  /** Every argument is an eye word, of which the last counts, or else has to read as a number. */
  method ParseArguments(words: seq<string>, read: Reader)
    returns (error: Option<string>, command: Command, numbers: seq<real>, eyeGiven: bool)
    requires words != []
    ensures match ReadArguments(words[1..], read)
            case Err(m) => error == Some(m)
            case Ok(a) => error == None && numbers == a.numbers && eyeGiven == a.eye.Some? && command == Chosen(a.eye)
  {
    error, command, numbers, eyeGiven := None, DEFAULT, [], false;
    ghost var eye: Option<string> := None;
    NothingBefore(ReadArguments(words[1..], read));
    for i := 1 to |words|
      invariant ReadArguments(words[1..], read) == Followed(numbers, eye, ReadArguments(words[i..], read))
      invariant eyeGiven == eye.Some? && command == Chosen(eye) && error == None
    {
      var word := words[i];
      assert words[i..][0] == word && words[i..][1..] == words[i + 1..];
      OneMore(numbers, eye, word, read, ReadArguments(words[i + 1..], read));
      if word == "left" || word == "right" || word == "both" {
        command := command.(left := word != "right", right := word != "left");
        eyeGiven := true;
        eye := Some(word);
      } else {
        var value := read(word);
        if value.Some? {
          numbers := numbers + [value.value];
        } else {
          error := Some("Bad argument '" + word + "'");
          return;
        }
      }
    }
    assert words[|words|..] == [];
    NothingAfter(numbers, eye, read);
  }

  method ParseCommand(text: string, read: Reader) returns (r: Result<Command>)
    ensures r == Parsed(Words(text), read)
  {
    hide Words, ReadArguments;
    var words := SplitWords(text);
    if words == [] {
      return Err(EMPTY);
    }
    var name := words[0];
    if name == "style" {
      if |words| != 2 {
        return Err(STYLE_USAGE);
      }
      return Ok(DEFAULT.(kind := Style, style := words[1]));
    }
    var error, command, numbers, eyeGiven := ParseArguments(words, read);
    if error.Some? {
      return Err(error.value);
    }
    if name == "blink" {
      if numbers != [] {
        return Err(NO_NUMBERS);
      }
      command := command.(kind := Blink);
    } else if name == "open" {
      if numbers == [] || |numbers| > 2 || numbers[0] < 0.0 || (|numbers| == 2 && numbers[1] < 0.0) {
        return Err(OPEN_USAGE);
      }
      command := command.(kind := Open, level := numbers[0], holdSeconds := if |numbers| == 2 then numbers[1] else 0.0);
    } else if name == "blink_rate" {
      if eyeGiven || |numbers| > 1 || (|numbers| == 1 && numbers[0] < 0.0) {
        return Err(RATE_USAGE);
      }
      command := command.(kind := BlinkRate);
      if numbers != [] {
        command := command.(rate := Some(numbers[0]));
      }
    } else {
      return Err(UNKNOWN);
    }
    return Ok(command);
  }

  // ---------------------------------------------------------------- moving the eye word

  function WithEye(r: Result<Arguments>, eye: string): Result<Arguments> {
    if r.Err? then r else Ok(r.value.(eye := Some(eye)))
  }

  predicate NoEyeWords(words: seq<string>) {
    forall k :: 0 <= k < |words| ==> !IsEyeWord(words[k])
  }

  lemma {:induction false} NoEyeIsRead(words: seq<string>, read: Reader)
    requires NoEyeWords(words)
    ensures ReadArguments(words, read).Ok? ==> ReadArguments(words, read).value.eye == None
  {
    if words != [] { NoEyeIsRead(words[1..], read); }
  }

  lemma {:induction false} EyeWordAnywhere(a: seq<string>, eye: string, b: seq<string>, read: Reader)
    requires NoEyeWords(a) && NoEyeWords(b) && IsEyeWord(eye)
    ensures ReadArguments(a + [eye] + b, read) == WithEye(ReadArguments(a + b, read), eye)
    decreases |a|
  {
    if a == [] {
      assert a + [eye] + b == [eye] + b && a + b == b;
      assert ([eye] + b)[1..] == b;
      NoEyeIsRead(b, read);
    } else {
      assert (a + [eye] + b)[1..] == a[1..] + [eye] + b;
      assert (a + b)[1..] == a[1..] + b;
      EyeWordAnywhere(a[1..], eye, b, read);
    }
  }

  /** A single eye word can stand anywhere among the arguments: the command, or the error, is the same. */
  lemma EyeWordMoves(name: string, a: seq<string>, b: seq<string>, a': seq<string>, b': seq<string>,
                     eye: string, read: Reader)
    requires IsEyeWord(eye) && NoEyeWords(a + b) && a + b == a' + b' && name != "style"
    ensures Parsed([name] + a + [eye] + b, read) == Parsed([name] + a' + [eye] + b', read)
  {
    assert forall k :: 0 <= k < |a| ==> a[k] == (a + b)[k];
    assert forall k :: 0 <= k < |b| ==> b[k] == (a + b)[|a| + k];
    assert forall k :: 0 <= k < |a'| ==> a'[k] == (a + b)[k];
    assert forall k :: 0 <= k < |b'| ==> b'[k] == (a + b)[|a'| + k];
    EyeWordAnywhere(a, eye, b, read);
    EyeWordAnywhere(a', eye, b', read);
    assert ([name] + a + [eye] + b)[1..] == a + [eye] + b;
    assert ([name] + a' + [eye] + b')[1..] == a' + [eye] + b';
  }

  // ---------------------------------------------------------------- what the words mean

  /** The words that are not eye words, in order. */
  function NumberWords(words: seq<string>): (r: seq<string>)
    ensures NoEyeWords(r)
  {
    if words == [] then [] else (if IsEyeWord(words[0]) then [] else [words[0]]) + NumberWords(words[1..])
  }

  predicate AllRead(words: seq<string>, read: Reader) {
    forall k :: 0 <= k < |words| ==> read(words[k]).Some?
  }

  /** The numbers are those of the words, one each. */
  predicate AreNumbersOf(numbers: seq<real>, words: seq<string>, read: Reader) {
    |numbers| == |words| && forall k :: 0 <= k < |words| ==> read(words[k]) == Some(numbers[k])
  }

  /** The last eye word among some words. */
  ghost predicate IsLastEye(words: seq<string>, eye: string) {
    IsEyeWord(eye) && exists k :: 0 <= k < |words| && words[k] == eye && NoEyeWords(words[k + 1..])
  }

  /** What reading some words gives: an error if one that is no eye word is no number, or else numbers and eyes. */
  ghost predicate Means(words: seq<string>, read: Reader, r: Result<Arguments>) {
    && (r.Ok? <==> AllRead(NumberWords(words), read))
    && (r.Ok? ==>
          && AreNumbersOf(r.value.numbers, NumberWords(words), read)
          && (r.value.eye == None <==> NoEyeWords(words))
          && (r.value.eye.Some? ==> IsLastEye(words, r.value.eye.value)))
  }

  lemma {:induction false} ArgumentsMean(words: seq<string>, read: Reader)
    ensures Means(words, read, ReadArguments(words, read))
  {
    if words != [] {
      var w, rest := words[0], words[1..];
      ArgumentsMean(rest, read);
      assert words == [w] + rest;
      hide Means, ReadArguments;
      ReadUnfolds(words, read);
      if IsEyeWord(w) {
        EyeBefore(w, rest, read, ReadArguments(rest, read));
      } else {
        NumberBefore(w, rest, read, ReadArguments(rest, read));
      }
    }
  }

  lemma EyeBefore(w: string, rest: seq<string>, read: Reader, later: Result<Arguments>)
    requires IsEyeWord(w) && Means(rest, read, later)
    ensures Means([w] + rest, read, Before(w, read, later))
  {
    NumberWordsOf(w, rest);
    if later.Ok? {
      if later.value.eye == None {
        assert ([w] + rest)[0 + 1..] == rest;
      } else {
        LaterEye(w, rest, later.value.eye.value);
      }
      assert !NoEyeWords([w] + rest) by { assert ([w] + rest)[0] == w; }
    }
  }

  lemma NumberWordsOf(w: string, rest: seq<string>)
    ensures NumberWords([w] + rest) == if IsEyeWord(w) then NumberWords(rest) else [w] + NumberWords(rest)
  {
    assert ([w] + rest)[1..] == rest && [] + NumberWords(rest) == NumberWords(rest);
  }

  lemma NumberBefore(w: string, rest: seq<string>, read: Reader, later: Result<Arguments>)
    requires !IsEyeWord(w) && Means(rest, read, later)
    ensures Means([w] + rest, read, Before(w, read, later))
  {
    NumberWordsOf(w, rest);
    FrontNumber(w, NumberWords(rest), read);
    if later.Ok? && later.value.eye.Some? { LaterEye(w, rest, later.value.eye.value); }
    NoEyeInFront(w, rest);
    hide NumberWords, IsLastEye, NoEyeWords;
  }

  lemma NoEyeInFront(w: string, rest: seq<string>)
    requires !IsEyeWord(w)
    ensures NoEyeWords([w] + rest) <==> NoEyeWords(rest)
  {
    if NoEyeWords([w] + rest) {
      forall k | 0 <= k < |rest| ensures !IsEyeWord(rest[k]) { assert ([w] + rest)[k + 1] == rest[k]; }
    }
  }

  lemma ReadUnfolds(words: seq<string>, read: Reader)
    requires words != []
    ensures ReadArguments(words, read) == Before(words[0], read, ReadArguments(words[1..], read))
  {
  }

  lemma LaterEye(w: string, rest: seq<string>, eye: string)
    requires IsLastEye(rest, eye)
    ensures IsLastEye([w] + rest, eye)
  {
    var k :| 0 <= k < |rest| && rest[k] == eye && NoEyeWords(rest[k + 1..]);
    assert ([w] + rest)[k + 2..] == rest[k + 1..];
    assert ([w] + rest)[k + 1] == eye;
  }

  lemma FrontNumber(w: string, words: seq<string>, read: Reader)
    ensures AllRead([w] + words, read) <==> read(w).Some? && AllRead(words, read)
  {
    if AllRead([w] + words, read) {
      assert ([w] + words)[0] == w;
      forall k | 0 <= k < |words| ensures read(words[k]).Some? { assert ([w] + words)[k + 1] == words[k]; }
    }
  }

  /** The error is that of the first argument that is neither an eye word nor a number. */
  lemma {:induction false} FirstBadIsReported(words: seq<string>, read: Reader) returns (k: nat)
    requires ReadArguments(words, read).Err?
    ensures k < |words| && !IsEyeWord(words[k]) && read(words[k]) == None
    ensures forall j :: 0 <= j < k ==> IsEyeWord(words[j]) || read(words[j]).Some?
    ensures ReadArguments(words, read).message == "Bad argument '" + words[k] + "'"
    decreases |words|
  {
    if !IsEyeWord(words[0]) && read(words[0]) == None {
      k := 0;
    } else {
      var rest := FirstBadIsReported(words[1..], read);
      k := rest + 1;
      forall j | 0 <= j < k ensures IsEyeWord(words[j]) || read(words[j]).Some? {
        if j > 0 { assert words[j] == words[1..][j - 1]; }
      }
    }
  }

  /** What a command says about the eyes: the last eye word names them, and without one both are meant. */
  ghost predicate NamesEyes(words: seq<string>, left: bool, right: bool) {
    && (NoEyeWords(words) ==> left && right)
    && (IsLastEye(words, "left") ==> left && !right)
    && (IsLastEye(words, "right") ==> !left && right)
    && (IsLastEye(words, "both") ==> left && right)
  }

  lemma NotAfter(words: seq<string>, k: int)
    requires 0 <= k < |words| && NoEyeWords(words[k + 1..])
    ensures forall j :: k < j < |words| ==> !IsEyeWord(words[j])
  {
    forall j | k < j < |words| ensures !IsEyeWord(words[j]) {
      assert words[k + 1..][j - k - 1] == words[j];
    }
  }

  lemma LastEyeIsUnique(words: seq<string>, eye: string, eye': string)
    requires IsLastEye(words, eye) && IsLastEye(words, eye')
    ensures eye == eye' && !NoEyeWords(words)
  {
    var k :| 0 <= k < |words| && words[k] == eye && NoEyeWords(words[k + 1..]);
    var k' :| 0 <= k' < |words| && words[k'] == eye' && NoEyeWords(words[k' + 1..]);
    NotAfter(words, k);
    NotAfter(words, k');
  }

  lemma EyesAreNamed(words: seq<string>, read: Reader)
    requires ReadArguments(words, read).Ok?
    ensures var c := Chosen(ReadArguments(words, read).value.eye);
      NamesEyes(words, c.left, c.right) && c == DEFAULT.(left := c.left, right := c.right)
  {
    ArgumentsMean(words, read);
    var eye := ReadArguments(words, read).value.eye;
    hide ReadArguments, IsLastEye, NoEyeWords;
    if eye.Some? {
      var w := eye.value;
      EyeIsOneOf(words, w);
      forall v | IsLastEye(words, v) ensures v == w { LastEyeIsUnique(words, v, w); }
    } else {
      forall v | IsLastEye(words, v) ensures false { LastEyeIsUnique(words, v, v); }
    }
  }

  lemma EyeIsOneOf(words: seq<string>, w: string)
    requires IsLastEye(words, w)
    ensures (w == "left" || w == "right" || w == "both") && !NoEyeWords(words)
  {
    LastEyeIsUnique(words, w, w);
  }

  lemma ParsedWith(name: string, args: seq<string>, read: Reader)
    requires name != "style"
    ensures Parsed([name] + args, read)
         == if ReadArguments(args, read).Err? then Err(ReadArguments(args, read).message)
            else Interpret(name, ReadArguments(args, read).value)
  {
    assert ([name] + args)[1..] == args;
  }

  /** `blink` is accepted exactly with nothing but eye words, and is for the eyes they name. */
  lemma BlinkMeans(args: seq<string>, read: Reader)
    ensures var r := Parsed(["blink"] + args, read);
      && (r.Ok? <==> NumberWords(args) == [])
      && (r.Ok? ==> r.value == DEFAULT.(kind := Blink, left := r.value.left, right := r.value.right)
                    && NamesEyes(args, r.value.left, r.value.right))
  {
    ParsedWith("blink", args, read);
    ArgumentsMean(args, read);
    if ReadArguments(args, read).Ok? { EyesAreNamed(args, read); }
    hide ReadArguments, NamesEyes, IsLastEye, Chosen, Parsed;
  }

  /** One or two numbers, none of them negative. */
  predicate AreOneOrTwo(words: seq<string>, read: Reader) {
    1 <= |words| <= 2 && forall k :: 0 <= k < |words| ==> read(words[k]).Some? && read(words[k]).value >= 0.0
  }

  /** `open` is accepted exactly with a level and perhaps a time among the eye words, neither negative. */
  lemma OpenMeans(args: seq<string>, read: Reader)
    ensures var r, words := Parsed(["open"] + args, read), NumberWords(args);
      && (r.Ok? <==> AreOneOrTwo(words, read))
      && (r.Ok? ==>
            && read(words[0]) == Some(r.value.level)
            && (|words| == 2 ==> read(words[1]) == Some(r.value.holdSeconds))
            && (|words| == 1 ==> r.value.holdSeconds == 0.0)
            && r.value == DEFAULT.(kind := Open, left := r.value.left, right := r.value.right,
                                   level := r.value.level, holdSeconds := r.value.holdSeconds)
            && NamesEyes(args, r.value.left, r.value.right))
  {
    ParsedWith("open", args, read);
    ArgumentsMean(args, read);
    if ReadArguments(args, read).Ok? { EyesAreNamed(args, read); }
    hide ReadArguments, NamesEyes, IsLastEye, Chosen, Parsed;
  }

  /** `blink_rate` is accepted exactly alone or with one number that is not negative, and then says it, or nothing. */
  lemma RateMeans(args: seq<string>, read: Reader)
    ensures var r := Parsed(["blink_rate"] + args, read);
      && (r.Ok? <==> args == [] || (|args| == 1 && !IsEyeWord(args[0]) && AreOneOrTwo(args, read)))
      && (r.Ok? ==> r.value == DEFAULT.(kind := BlinkRate, rate := if args == [] then None else read(args[0])))
  {
    ParsedWith("blink_rate", args, read);
    ArgumentsMean(args, read);
    NoEyeIsAll(args);
    if args != [] { FrontNumber(args[0], args[1..], read); }
    hide ReadArguments, IsLastEye, Parsed;
  }

  lemma {:induction false} NoEyeIsAll(words: seq<string>)
    ensures NoEyeWords(words) ==> NumberWords(words) == words
    ensures |NumberWords(words)| <= |words|
  {
    if words != [] {
      NoEyeIsAll(words[1..]);
      assert words == [words[0]] + words[1..];
      if NoEyeWords(words) {
        assert !IsEyeWord(words[0]);
        assert NoEyeWords(words[1..]);
      }
    }
  }

  /** Other names are never accepted. */
  lemma OtherNamesFail(name: string, args: seq<string>, read: Reader)
    requires name != "blink" && name != "open" && name != "blink_rate" && name != "style"
    ensures Parsed([name] + args, read).Err?
  {
    ParsedWith(name, args, read);
    hide ReadArguments;
  }

  /** Naming both eyes is like naming none, for the commands that eyes are named for. */
  lemma BothIsDefault(name: string, a: seq<string>, b: seq<string>, read: Reader)
    requires name == "blink" || name == "open"
    requires NoEyeWords(a + b)
    ensures Parsed([name] + (a + ["both"] + b), read) == Parsed([name] + (a + b), read)
  {
    assert forall k :: 0 <= k < |a| ==> a[k] == (a + b)[k];
    assert forall k :: 0 <= k < |b| ==> b[k] == (a + b)[|a| + k];
    EyeWordAnywhere(a, "both", b, read);
    NoEyeIsRead(a + b, read);
    ParsedWith(name, a + ["both"] + b, read);
    ParsedWith(name, a + b, read);
    hide ReadArguments, Parsed;
  }

  /** An eye word with another one after it says nothing. */
  lemma {:induction false} EarlierEyeIsIgnored(a: seq<string>, eye: string, b: seq<string>, read: Reader)
    requires IsEyeWord(eye) && !NoEyeWords(b)
    ensures ReadArguments(a + [eye] + b, read) == ReadArguments(a + b, read)
    decreases |a|
  {
    if a == [] {
      assert a + [eye] + b == [eye] + b && a + b == b && ([eye] + b)[1..] == b;
      ArgumentsMean(b, read);
    } else {
      assert (a + [eye] + b)[1..] == a[1..] + [eye] + b;
      assert (a + b)[1..] == a[1..] + b;
      EarlierEyeIsIgnored(a[1..], eye, b, read);
    }
  }

  // ---------------------------------------------------------------- the API's texts

  datatype Eye = Both | Left | Right

  function EyeWord(eye: Eye): string {
    match eye
    case Left => " left"
    case Right => " right"
    case Both => ""
  }

  /** How a number is written. */
  type Writer = real -> string

  function BlinkText(eye: Eye): string {
    "blink" + EyeWord(eye)
  }

  function OpenText(level: real, eye: Eye, write: Writer): string {
    "open " + write(level) + EyeWord(eye)
  }

  function HoldText(level: real, seconds: real, eye: Eye, write: Writer): string {
    "open " + write(level) + " " + write(seconds) + EyeWord(eye)
  }

  function BlinkRateText(perMinute: real, write: Writer): string {
    "blink_rate " + write(perMinute)
  }

  function StyleText(name: string): string {
    "style " + name
  }

  /** A number that is printed as a word of its own and read back as `sent`. */
  predicate Arrives(v: real, sent: real, write: Writer, read: Reader) {
    IsWord(write(v)) && !IsEyeWord(write(v)) && read(write(v)) == Some(sent)
  }

  /** A reader that understands plain decimals, whatever else it may accept. */
  ghost predicate ReadsDecimals(read: Reader) {
    forall w: string {:trigger read(w)} :: D.IsDecimal(w) ==> read(w) == Some(D.Value(w))
  }

  /** So every number that the API writes as a plain decimal arrives. */
  lemma DecimalArrives(v: real, write: Writer, read: Reader)
    requires ReadsDecimals(read) && D.IsDecimal(write(v))
    ensures Arrives(v, D.Value(write(v)), write, read)
  {
    var w := write(v);
    var point: nat :| D.IsSplitAt(w, point);
    forall i | 0 <= i < |w| ensures !IsSpace(w[i]) {
      if i < point {
        assert w[..point][i] == w[i];
      } else if i > point {
        assert w[point + 1..][i - point - 1] == w[i];
      }
    }
    assert D.IsDigit(w[..point][0]) && !D.IsDigit('l') && !D.IsDigit('r') && !D.IsDigit('b');
    assert w[0] == w[..point][0];
  }

  /**
   And all that %g prints without an exponent: a number arrives within a 200000th of itself, and as itself
   exactly when it has no more than six significant digits.
   */
  lemma NumberArrives(v: real, write: Writer, read: Reader)
    requires ReadsDecimals(read) && (v == 0.0 || D.IsPlain(v)) && write(v) == D.General(v)
    ensures Arrives(v, D.Sent(v), write, read)
    ensures -v <= 200000.0 * (D.Sent(v) - v) <= v
    ensures Arrives(v, v, write, read) <==> v == 0.0 || D.HasSixDigits(v)
  {
    hide D.General, D.Sent, D.HasSixDigits, D.Value, D.IsDecimal;
    D.GeneralReadsBack(v);
    D.SentIsClose(v);
    DecimalArrives(v, write, read);
  }

  /** The command for chosen eyes. */
  function For(eye: Eye): Command {
    DEFAULT.(left := eye != Right, right := eye != Left)
  }

  function EyeWords(eye: Eye): seq<string> {
    match eye
    case Left => ["left"]
    case Right => ["right"]
    case Both => []
  }

  /** A word, a space and the rest. */
  lemma SpacedWord(w: string, rest: string)
    requires IsWord(w)
    ensures Words(w + (" " + rest)) == [w] + Words(rest)
  {
    WordComesFirst(w, " " + rest);
    BlanksAreSkipped(" ", rest);
  }

  lemma LastWord(w: string)
    requires IsWord(w)
    ensures Words(w) == [w]
  {
    WordComesFirst(w, "");
    assert w + "" == w;
    assert Words("") == [];
  }

  /** A word and the eye word after it. */
  lemma WordThenEye(w: string, eye: Eye)
    requires IsWord(w)
    ensures Words(w + EyeWord(eye)) == [w] + EyeWords(eye)
  {
    hide Words;
    match eye {
      case Both =>
        LastWord(w);
        assert w + "" == w;
      case Left =>
        SpacedWord(w, "left");
        LastWord("left");
        assert " left" == " " + "left";
      case Right =>
        SpacedWord(w, "right");
        LastWord("right");
        assert " right" == " " + "right";
    }
  }

  /** What the arguments of an API text say. */
  function EyeArgument(eye: Eye): Option<string> {
    match eye
    case Both => None
    case Left => Some("left")
    case Right => Some("right")
  }

  lemma EyeIsChosen(eye: Eye)
    ensures Chosen(EyeArgument(eye)) == For(eye)
  {
  }

  lemma EyeWordsRead(eye: Eye, read: Reader)
    ensures ReadArguments(EyeWords(eye), read) == Ok(Arguments([], EyeArgument(eye)))
  {
  }

  lemma NumberRead(v: real, sent: real, rest: seq<string>, write: Writer, read: Reader, a: Arguments)
    requires Arrives(v, sent, write, read) && ReadArguments(rest, read) == Ok(a)
    ensures ReadArguments([write(v)] + rest, read) == Ok(Arguments([sent] + a.numbers, a.eye))
  {
  }

  /** A name, then arguments that can be read. */
  lemma NameThenArguments(name: string, rest: seq<string>, read: Reader, a: Arguments)
    requires name != "style" && ReadArguments(rest, read) == Ok(a)
    ensures Parsed([name] + rest, read) == Interpret(name, a)
  {
  }

  /** blink() and wink() */
  lemma BlinkRoundTrip(eye: Eye, read: Reader)
    ensures Parsed(Words(BlinkText(eye)), read) == Ok(For(eye).(kind := Blink))
  {
    hide Words, Parsed, ReadArguments;
    WordThenEye("blink", eye);
    EyeWordsRead(eye, read);
    NameThenArguments("blink", EyeWords(eye), read, Arguments([], EyeArgument(eye)));
    EyeIsChosen(eye);
  }

  lemma OpenIsRead(a: Arguments)
    requires a.numbers != [] && |a.numbers| <= 2 && a.numbers[0] >= 0.0 && (|a.numbers| == 2 ==> a.numbers[1] >= 0.0)
    ensures Interpret("open", a) == Ok(Chosen(a.eye).(kind := Open, level := a.numbers[0],
                                         holdSeconds := if |a.numbers| == 2 then a.numbers[1] else 0.0))
  {
  }

  /** open() until changed */
  lemma OpenRoundTrip(level: real, sent: real, eye: Eye, write: Writer, read: Reader)
    requires sent >= 0.0 && Arrives(level, sent, write, read)
    ensures Parsed(Words(OpenText(level, eye, write)), read) == Ok(For(eye).(kind := Open, level := sent))
  {
    hide Words, Parsed, ReadArguments, Interpret, Chosen, EyeWord;
    var n, e := write(level), EyeWord(eye);
    assert OpenText(level, eye, write) == "open" + (" " + (n + e));
    SpacedWord("open", n + e);
    WordThenEye(n, eye);
    EyeWordsRead(eye, read);
    NumberRead(level, sent, EyeWords(eye), write, read, Arguments([], EyeArgument(eye)));
    var a := Arguments([sent] + [], EyeArgument(eye));
    NameThenArguments("open", [n] + EyeWords(eye), read, a);
    OpenIsRead(a);
    EyeIsChosen(eye);
  }

  /** open() for some seconds */
  lemma HoldRoundTrip(level: real, level': real, seconds: real, seconds': real, eye: Eye, write: Writer, read: Reader)
    requires level' >= 0.0 && seconds' >= 0.0
    requires Arrives(level, level', write, read) && Arrives(seconds, seconds', write, read)
    ensures Parsed(Words(HoldText(level, seconds, eye, write)), read)
         == Ok(For(eye).(kind := Open, level := level', holdSeconds := seconds'))
  {
    hide Words, Parsed, ReadArguments, Interpret, Chosen, EyeWord;
    var n, s, e := write(level), write(seconds), EyeWord(eye);
    assert HoldText(level, seconds, eye, write) == "open" + (" " + (n + (" " + (s + e))));
    SpacedWord("open", n + (" " + (s + e)));
    SpacedWord(n, s + e);
    WordThenEye(s, eye);
    EyeWordsRead(eye, read);
    NumberRead(seconds, seconds', EyeWords(eye), write, read, Arguments([], EyeArgument(eye)));
    NumberRead(level, level', [s] + EyeWords(eye), write, read, Arguments([seconds'] + [], EyeArgument(eye)));
    var a := Arguments([level'] + ([seconds'] + []), EyeArgument(eye));
    NameThenArguments("open", [n] + ([s] + EyeWords(eye)), read, a);
    OpenIsRead(a);
    EyeIsChosen(eye);
  }

  /** blinkRate() */
  lemma BlinkRateRoundTrip(perMinute: real, sent: real, write: Writer, read: Reader)
    requires sent >= 0.0 && Arrives(perMinute, sent, write, read)
    ensures Parsed(Words(BlinkRateText(perMinute, write)), read)
         == Ok(DEFAULT.(kind := BlinkRate, rate := Some(sent)))
  {
    hide Words, Parsed, ReadArguments;
    var n := write(perMinute);
    assert BlinkRateText(perMinute, write) == "blink_rate" + (" " + n);
    SpacedWord("blink_rate", n);
    LastWord(n);
    EyeWordsRead(Both, read);
    NumberRead(perMinute, sent, [], write, read, Arguments([], None));
    assert [n] + [] == [n];
    NameThenArguments("blink_rate", [n], read, Arguments([sent] + [], None));
  }

  /** style(): a name comes through if and only if it is a single word without blanks. */
  lemma StyleRoundTrip(name: string, read: Reader)
    ensures Parsed(Words(StyleText(name)), read) == Ok(DEFAULT.(kind := Style, style := name)) <==> IsWord(name)
    ensures Parsed(Words(StyleText(name)), read).Ok? <==> |Words(name)| == 1
  {
    hide Words, ReadArguments, Interpret;
    assert StyleText(name) == "style" + (" " + name);
    SpacedWord("style", name);
    if IsWord(name) {
      LastWord(name);
    } else if |Words(name)| == 1 {
      SplitsIntoWords(name);
    }
  }

  lemma SplitsIntoWords(line: string)
    ensures forall w :: w in Words(line) ==> IsWord(w)
  {
    hide Words;
    var blanks, parts := EveryLineIsJoined(line);
    WordsOfAreWords(parts);
  }

  lemma {:induction false} WordsOfAreWords(parts: seq<Part>)
    requires WellJoined(parts)
    ensures forall w :: w in WordsOf(parts) ==> IsWord(w)
  {
    if parts != [] { WordsOfAreWords(parts[1..]); }
  }
}
