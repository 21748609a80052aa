/**
 * parse_command: split a line on single spaces, check that the first word is a
 * G or M code, then turn every later word into a field keyed by its upper-cased
 * first letter, the number being the rest of the word.
 *
 * Python's float() is not modelled: it is the parameter toFloat, None standing
 * for the ValueError it raises on a malformed number.
 */
module Parser {
  import opened Wrappers
  import opened Commands

  /** str.split(' '): the words between single spaces, empty words included. */
  function Split(s: string): (r: seq<string>)
    ensures |r| >= 1
    ensures forall i :: 0 <= i < |r| ==> ' ' !in r[i]
    decreases |s|
  {
    if |s| == 0 then [""]
    else
      var rest := Split(s[1..]);
      if s[0] == ' ' then [""] + rest
      else [[s[0]] + rest[0]] + rest[1..]
  }

  /** ' '.join(words): the inverse of Split. */
  function Join(words: seq<string>): string
    requires |words| >= 1
    decreases |words|
  {
    if |words| == 1 then words[0] else words[0] + " " + Join(words[1..])
  }

  lemma {:induction false} JoinSplit(s: string)
    ensures Join(Split(s)) == s
    decreases |s|
  {
    if |s| > 0 {
      var rest := Split(s[1..]);
      JoinSplit(s[1..]);
      if s[0] == ' ' {
        assert Split(s) == [""] + rest;
        assert ([""] + rest)[1..] == rest;
        assert s == " " + s[1..];
      } else if |rest| == 1 {
        assert Split(s) == [[s[0]] + rest[0]];
        assert s == [s[0]] + s[1..];
      } else {
        var r := Split(s);
        assert r == [[s[0]] + rest[0]] + rest[1..];
        assert r[1..] == rest[1..];
        calc {
          Join(r);
          ([s[0]] + rest[0]) + " " + Join(rest[1..]);
          [s[0]] + (rest[0] + " " + Join(rest[1..]));
          [s[0]] + Join(rest);
          [s[0]] + s[1..];
          s;
        }
      }
    }
  }

  /** A word without a space followed by a space and more text splits off as the first word. */
  lemma {:induction false} SplitAfterWord(w: string, tail: string)
    requires ' ' !in w
    ensures Split(w + " " + tail) == [w] + Split(tail)
    ensures Split(w) == [w]
    decreases |w|
  {
    if |w| == 0 {
      assert w + " " + tail == [' '] + tail;
      assert ([' '] + tail)[1..] == tail;
    } else {
      SplitAfterWord(w[1..], tail);
      assert (w + " " + tail)[1..] == w[1..] + " " + tail;
      assert w == [w[0]] + w[1..];
    }
  }

  lemma {:induction false} SplitJoin(words: seq<string>)
    requires |words| >= 1
    requires forall i :: 0 <= i < |words| ==> ' ' !in words[i]
    ensures Split(Join(words)) == words
    decreases |words|
  {
    SplitAfterWord(words[0], "");
    if |words| > 1 {
      SplitJoin(words[1..]);
      SplitAfterWord(words[0], Join(words[1..]));
      assert words == [words[0]] + words[1..];
    }
  }

  /** c[1:], which is empty for an empty word. */
  function Tail(word: string): string {
    if |word| == 0 then "" else word[1..]
  }

  /** str.upper() on one ASCII character. */
  function Upper(ch: char): char {
    if 'a' <= ch <= 'z' then (ch as int - 32) as char else ch
  }

  /** The field key of a word: its upper-cased first letter. */
  function Key(word: string): char
    requires |word| > 0
  {
    Upper(word[0])
  }

  /** A word that parse_command turns into a field without raising. */
  predicate Parses(word: string, toFloat: string -> Option<real>) {
    |word| > 0 && toFloat(Tail(word)).Some?
  }

  function Value(word: string, toFloat: string -> Option<real>): real
    requires Parses(word, toFloat)
  {
    toFloat(Tail(word)).value
  }

  /**
   * cmd_dict[c[0].upper()] = float(c[1:]).  Python evaluates the right-hand side
   * first, so an empty word raises ValueError from float('') before c[0] is read.
   */
  function AddWord(fields: map<char, real>, word: string, toFloat: string -> Option<real>)
    : Result<map<char, real>, Crash>
  {
    match toFloat(Tail(word))
    case None => Err(ValueError)
    case Some(v) => if |word| == 0 then Err(IndexError) else Ok(fields[Key(word) := v])
  }

  /** The fields built from the words after the first, in order; the first failure wins. */
  function Fields(words: seq<string>, toFloat: string -> Option<real>): Result<map<char, real>, Crash>
    decreases |words|
  {
    if |words| == 0 then Ok(map[])
    else
      match Fields(words[..|words| - 1], toFloat)
      case Err(e) => Err(e)
      case Ok(m) => AddWord(m, words[|words| - 1], toFloat)
  }

  /** parse_command as a function of the line. */
  function ParseLine(line: string, toFloat: string -> Option<real>): Result<Cmd, Crash> {
    var words := Split(line);
    if |words[0]| == 0 then Err(IndexError)
    else if words[0][0] == 'G' || words[0][0] == 'M' then
      match Fields(words[1..], toFloat)
      case Err(e) => Err(e)
      case Ok(m) => Ok(Cmd(Some(words[0]), m))
    else Ok(Invalid)
  }

  /** Once a prefix of the words fails, the whole line fails with the same exception. */
  lemma {:induction false} FieldsFailureSticks(words: seq<string>, n: nat, toFloat: string -> Option<real>)
    requires n <= |words|
    requires Fields(words[..n], toFloat).Err?
    ensures Fields(words, toFloat) == Fields(words[..n], toFloat)
    decreases |words| - n
  {
    if n < |words| {
      assert words[..n + 1][..n] == words[..n];
      FieldsFailureSticks(words, n + 1, toFloat);
    } else {
      assert words[..n] == words;
    }
  }

  /** The fields parse exactly when every word is non-empty and its number converts. */
  lemma {:induction false} FieldsSucceed(words: seq<string>, toFloat: string -> Option<real>)
    ensures Fields(words, toFloat).Ok? <==> forall j :: 0 <= j < |words| ==> Parses(words[j], toFloat)
    decreases |words|
  {
    if |words| > 0 {
      var init := words[..|words| - 1];
      FieldsSucceed(init, toFloat);
      assert forall j :: 0 <= j < |init| ==> init[j] == words[j];
    }
  }

  /** Word j is the last word with its key. */
  ghost predicate LastWithKey(words: seq<string>, j: int)
    requires 0 <= j < |words| && |words[j]| > 0
  {
    forall j' :: j < j' < |words| && |words[j']| > 0 ==> Key(words[j']) != Key(words[j])
  }

  /** The keys of the fields are exactly the keys of the words. */
  lemma {:induction false} FieldsKeys(words: seq<string>, toFloat: string -> Option<real>, m: map<char, real>)
    requires Fields(words, toFloat) == Ok(m)
    ensures forall j :: 0 <= j < |words| ==> Parses(words[j], toFloat) && Key(words[j]) in m
    ensures forall k :: k in m ==> exists j :: 0 <= j < |words| && |words[j]| > 0 && Key(words[j]) == k
    decreases |words|
  {
    FieldsSucceed(words, toFloat);
    if |words| > 0 {
      var n := |words| - 1;
      var init := words[..n];
      var m0 := Fields(init, toFloat).value;
      FieldsKeys(init, toFloat, m0);
      assert forall j :: 0 <= j < n ==> init[j] == words[j];
      assert m == m0[Key(words[n]) := Value(words[n], toFloat)];
      forall k | k in m
        ensures exists j :: 0 <= j < |words| && |words[j]| > 0 && Key(words[j]) == k
      {
        if k != Key(words[n]) {
          var j :| 0 <= j < |init| && |init[j]| > 0 && Key(init[j]) == k;
          assert Key(words[j]) == k;
        }
      }
    }
  }

  /** Each key holds the number of the last word that has it: later words overwrite earlier ones. */
  lemma {:induction false} FieldsLastWins(words: seq<string>, toFloat: string -> Option<real>, m: map<char, real>)
    requires Fields(words, toFloat) == Ok(m)
    ensures forall j :: 0 <= j < |words| && |words[j]| > 0 && LastWithKey(words, j) ==>
              Parses(words[j], toFloat) && Key(words[j]) in m && m[Key(words[j])] == Value(words[j], toFloat)
    decreases |words|
  {
    FieldsSucceed(words, toFloat);
    if |words| > 0 {
      var n := |words| - 1;
      var init := words[..n];
      var m0 := Fields(init, toFloat).value;
      FieldsLastWins(init, toFloat, m0);
      assert m == m0[Key(words[n]) := Value(words[n], toFloat)];
      forall j | 0 <= j < |words| && |words[j]| > 0 && LastWithKey(words, j)
        ensures Parses(words[j], toFloat) && Key(words[j]) in m && m[Key(words[j])] == Value(words[j], toFloat)
      {
        if j < n {
          assert init[j] == words[j];
          assert Key(words[n]) != Key(words[j]);
          assert LastWithKey(init, j) by {
            forall j' | j < j' < |init| && |init[j']| > 0
              ensures Key(init[j']) != Key(init[j])
            {
              assert init[j'] == words[j'];
            }
          }
        }
      }
    }
  }

  /** A line whose first word does not start with G or M parses to exactly {'command': 'invalid'}. */
  lemma ParseInvalid(line: string, toFloat: string -> Option<real>)
    requires |Split(line)[0]| > 0
    ensures var w := Split(line)[0];
            (w[0] != 'G' && w[0] != 'M' <==> ParseLine(line, toFloat) == Ok(Invalid))
  {
  }

  /** The empty string, or a line that starts with a space, raises IndexError. */
  lemma ParseEmptyFirstWord(line: string, toFloat: string -> Option<real>)
    requires |line| == 0 || line[0] == ' '
    ensures ParseLine(line, toFloat) == Err(IndexError)
  {
  }

  /**
   * Lines read from a file keep their '\n'.  A blank line is therefore "\n",
   * which is invalid rather than an IndexError, and a G or M word alone on its
   * line keeps the '\n' in its tag and has no fields.
   */
  lemma LineEndingKept(word: string, toFloat: string -> Option<real>)
    requires |word| > 0 && (word[0] == 'G' || word[0] == 'M') && ' ' !in word
    ensures ParseLine("\n", toFloat) == Ok(Invalid)
    ensures ParseLine(word + "\n", toFloat) == Ok(Cmd(Some(word + "\n"), map[]))
  {
    SplitJoin(["\n"]);
    assert Join(["\n"]) == "\n";
    SplitJoin([word + "\n"]);
    assert Join([word + "\n"]) == word + "\n";
  }

  /** The words after the first: the ones that become fields. */
  function FieldWords(line: string): seq<string> {
    Split(line)[1..]
  }

  /** A G/M line parses exactly when every later word is non-empty and its number converts. */
  lemma ParseSucceeds(line: string, toFloat: string -> Option<real>)
    requires |Split(line)[0]| > 0 && (Split(line)[0][0] == 'G' || Split(line)[0][0] == 'M')
    ensures ParseLine(line, toFloat).Ok? <==>
              forall j :: 0 <= j < |FieldWords(line)| ==> Parses(FieldWords(line)[j], toFloat)
  {
    FieldsSucceed(FieldWords(line), toFloat);
  }

  /**
   * A parsed G/M line is valid, its command is the first word, and its fields are
   * keyed by the later words, the last word with a key giving its value.
   */
  lemma ParseShape(line: string, toFloat: string -> Option<real>, c: Cmd)
    requires |Split(line)[0]| > 0 && (Split(line)[0][0] == 'G' || Split(line)[0][0] == 'M')
    requires ParseLine(line, toFloat) == Ok(c)
    ensures IsValid(c) && c.tag == Some(Split(line)[0])
    ensures var ws := FieldWords(line);
            && (forall j :: 0 <= j < |ws| ==> Parses(ws[j], toFloat) && Key(ws[j]) in c.fields)
            && (forall k :: k in c.fields ==> exists j :: 0 <= j < |ws| && |ws[j]| > 0 && Key(ws[j]) == k)
            && (forall j :: 0 <= j < |ws| && |ws[j]| > 0 && LastWithKey(ws, j) ==>
                  Key(ws[j]) in c.fields && c.fields[Key(ws[j])] == Value(ws[j], toFloat))
  {
    FieldsKeys(FieldWords(line), toFloat, c.fields);
    FieldsLastWins(FieldWords(line), toFloat, c.fields);
  }

  /** parse_command: the loop over the words after the first builds the field map. */
  method ParseCommand(cmd: string, toFloat: string -> Option<real>) returns (r: Result<Cmd, Crash>)
    ensures r == ParseLine(cmd, toFloat)
  {
    var cmdSplit := Split(cmd);
    if |cmdSplit[0]| == 0 {
      return Err(IndexError);
    }
    if !(cmdSplit[0][0] == 'G' || cmdSplit[0][0] == 'M') {
      return Ok(Invalid);
    }
    var words := cmdSplit[1..];
    var fields: map<char, real> := map[];
    var k := 0;
    while k < |words|
      invariant 0 <= k <= |words|
      invariant Fields(words[..k], toFloat) == Ok(fields)
    {
      var c := words[k];
      assert words[..k + 1][..k] == words[..k];
      var value := toFloat(Tail(c));
      if value.None? {
        FieldsFailureSticks(words, k + 1, toFloat);
        return Err(ValueError);
      }
      if |c| == 0 {
        FieldsFailureSticks(words, k + 1, toFloat);
        return Err(IndexError);
      }
      fields := fields[Upper(c[0]) := value.value];
      k := k + 1;
    }
    assert words[..k] == words;
    r := Ok(Cmd(Some(cmdSplit[0]), fields));
  }
}
