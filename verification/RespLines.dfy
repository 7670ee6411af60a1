/** Lines the client does not print: inline commands, which a person may type, and
    headers that are not allowed. */
module RespLines {
  import opened Bytes
  import opened Decimal
  import opened Resp

  /* ---- The words of a line ---- */

  predicate White(b: byte) {
    b == 0x20 || b == 0x09 || b == 0x0a || b == 0x0c || b == 0x0d
  }

  predicate Blank(s: seq<byte>) {
    forall i :: 0 <= i < |s| ==> White(s[i])
  }

  predicate NoWhite(s: seq<byte>) {
    forall i :: 0 <= i < |s| ==> !White(s[i])
  }

  predicate AllWords(words: seq<seq<byte>>) {
    forall i :: 0 <= i < |words| ==> words[i] != [] && NoWhite(words[i])
  }

  /** White space around the words, and at least some between any two. */
  predicate Gaps(gaps: seq<seq<byte>>, words: seq<seq<byte>>) {
    && |gaps| == |words| + 1 && (forall i :: 0 <= i < |gaps| ==> Blank(gaps[i]))
    && forall i :: 0 < i < |words| ==> gaps[i] != []
  }

  function Joined(gaps: seq<seq<byte>>, words: seq<seq<byte>>): seq<byte>
    requires |gaps| == |words| + 1
  {
    if words == [] then gaps[0] else gaps[0] + (words[0] + Joined(gaps[1..], words[1..]))
  }

  lemma {:induction false} SkipBlank(gap: seq<byte>, rest: seq<byte>)
    requires Blank(gap)
    ensures Words(gap + rest, []) == Words(rest, [])
  {
    if gap == [] {
      assert gap + rest == rest;
    } else {
      assert (gap + rest)[1..] == gap[1..] + rest;
      SkipBlank(gap[1..], rest);
    }
  }

  lemma {:induction false} TakeWord(word: seq<byte>, rest: seq<byte>, before: seq<byte>)
    requires NoWhite(word)
    ensures Words(word + rest, before) == Words(rest, before + word)
  {
    if word == [] {
      assert word + rest == rest && before + word == before;
    } else {
      assert (word + rest)[1..] == word[1..] + rest;
      assert before + [word[0]] + word[1..] == before + word;
      TakeWord(word[1..], rest, before + [word[0]]);
    }
  }

  lemma EndWord(rest: seq<byte>, word: seq<byte>)
    requires word != [] && (rest == [] || White(rest[0]))
    ensures Words(rest, word) == [word] + Words(rest, [])
  {
    if rest != [] { assert Words(rest, []) == [] + Words(rest[1..], []); }
  }

  /** What stands between white space is what is read, whatever it is. */
  lemma {:induction false} WordsBack(gaps: seq<seq<byte>>, words: seq<seq<byte>>)
    requires Gaps(gaps, words) && AllWords(words)
    ensures Words(Joined(gaps, words), []) == words
    decreases |words|
  {
    hide Words, White;
    if words == [] {
      assert gaps[0] + [] == gaps[0];
      SkipBlank(gaps[0], []);
      assert Words([], []) == [] by { NoWords(); }
    } else {
      var rest := Joined(gaps[1..], words[1..]);
      SkipBlank(gaps[0], words[0] + rest);
      TakeWord(words[0], rest, []);
      assert [] + words[0] == words[0];
      assert rest == [] || White(rest[0]);
      EndWord(rest, words[0]);
      WordsBack(gaps[1..], words[1..]);
    }
  }

  lemma NoWords()
    ensures Words([], []) == []
  {
  }

  function Flat(words: seq<seq<byte>>): seq<byte> {
    if words == [] then [] else words[0] + Flat(words[1..])
  }

  function WithoutWhite(s: seq<byte>): seq<byte> {
    if s == [] then [] else (if White(s[0]) then [] else [s[0]]) + WithoutWhite(s[1..])
  }

  lemma FlatCons(word: seq<byte>, words: seq<seq<byte>>)
    ensures Flat([word] + words) == word + Flat(words)
  {
    assert ([word] + words)[1..] == words;
  }

  /** The words of any line are words, and between them hold all of the line that
      is not white space, in order. */
  lemma {:induction false} WordsKeepAll(line: seq<byte>, word: seq<byte>)
    requires NoWhite(word)
    ensures AllWords(Words(line, word)) && Flat(Words(line, word)) == word + WithoutWhite(line)
    decreases |line|
  {
    hide Words, WithoutWhite, Flat, White;
    WordsStep(line, word);
    if line == [] {
      OneWord(word, []);
      assert word + [] == word && Flat([]) == [] by { FlatNothing(); }
    } else if White(line[0]) {
      WordsKeepAll(line[1..], []);
      OneWord(word, Words(line[1..], []));
      assert [] + WithoutWhite(line[1..]) == WithoutWhite(line[1..]);
    } else {
      WordsKeepAll(line[1..], word + [line[0]]);
      assert word + [line[0]] + WithoutWhite(line[1..]) == word + ([line[0]] + WithoutWhite(line[1..]));
    }
  }

  /** What the first byte of the line does. */
  lemma WordsStep(line: seq<byte>, word: seq<byte>)
    ensures line == [] ==> Words(line, word) == Finished(word) + [] && WithoutWhite(line) == []
    ensures line != [] && White(line[0]) ==>
              && Words(line, word) == Finished(word) + Words(line[1..], [])
              && WithoutWhite(line) == WithoutWhite(line[1..])
    ensures line != [] && !White(line[0]) ==>
              && Words(line, word) == Words(line[1..], word + [line[0]])
              && WithoutWhite(line) == [line[0]] + WithoutWhite(line[1..])
  {
    if line != [] && White(line[0]) {
      assert [] + WithoutWhite(line[1..]) == WithoutWhite(line[1..]);
    }
  }

  function Finished(word: seq<byte>): seq<seq<byte>> {
    if word == [] then [] else [word]
  }

  lemma OneWord(word: seq<byte>, words: seq<seq<byte>>)
    requires NoWhite(word) && AllWords(words)
    ensures AllWords(Finished(word) + words) && Flat(Finished(word) + words) == word + Flat(words)
  {
    hide White, NoWhite, Flat;
    if word == [] {
      assert [] + words == words && [] + Flat(words) == Flat(words);
    } else {
      FlatCons(word, words);
    }
  }

  lemma FlatNothing()
    ensures Flat([]) == []
  {
  }

  /* ---- Reading a line from the stream ---- */

  /** Any line, ended in either way, is read back up to its end. */
  lemma ReadLineBack(line: seq<byte>, end: seq<byte>, rest: seq<byte>)
    requires NoLineEnd(line) && end in {[0x0d, 0x0a], [0x0a]}
    ensures ReadLine(line + end + rest, 0) == Some((line, |line| + |end|))
  {
    var buf, n := line + end + rest, |line| + |end|;
    NewlineAt(buf, 0, n - 1);
    assert buf[0..n] == line + end;
    StripLine(line);
    StripLine(line + []);
    if end == [0x0a] {
      assert (line + [LF])[..|line|] == line;
    } else {
      assert end == CRLF;
    }
  }

  /** A line that does not start with a star is a command by its words. */
  lemma InlineIsItsWords(gaps: seq<seq<byte>>, words: seq<seq<byte>>, end: seq<byte>, rest: seq<byte>)
    requires Gaps(gaps, words) && AllWords(words) && end in {[0x0d, 0x0a], [0x0a]}
    requires var line := Joined(gaps, words); NoLineEnd(line) && (line != [] ==> line[0] != 0x2a)
    ensures var line := Joined(gaps, words);
            ReadCommand(line + end + rest, 0) == Ok((Some(words), |line| + |end|))
  {
    hide Words, Joined, ReadLine;
    WordsBack(gaps, words);
    ReadLineBack(Joined(gaps, words), end, rest);
  }

  /* ---- Headers that are not allowed ---- */

  lemma SignedNoLineEnd(kind: byte, n: int)
    requires kind != 0x0a && kind != 0x0d
    ensures NoLineEnd([kind] + SignedDigits(n))
  {
    DigitsBack(if n < 0 then -n else n);
  }

  lemma AfterKind(kind: byte, text: seq<byte>)
    ensures ([kind] + text)[1..] == text
  {
  }

  lemma ParseLenTooLarge(n: nat, max: nat)
    requires n > max
    ensures ParseLen(SignedDigits(n), max) == Err(Protocol)
  {
    DigitsBack(n);
    NoSign(Digits(n));
    if n < I64_LIMIT { ParseBack(n); }
  }

  /** A bulk string header is refused if it does not start with a dollar sign, if
      its length is over 64 MiB, and if its length is negative. */
  lemma RefusedBulkHeader(kind: byte, n: int, rest: seq<byte>)
    requires kind != 0x0a && kind != 0x0d
    requires kind != 0x24 || n > 64 * 1024 * 1024 || n < 0
    ensures ReadArg([kind] + SignedDigits(n) + CRLF + rest, 0) == Err(Protocol)
  {
    hide Digits, SignedDigits, ReadLine, ParseI64;
    SignedNoLineEnd(kind, n);
    ReadLineBack([kind] + SignedDigits(n), CRLF, rest);
    AfterKind(kind, SignedDigits(n));
    if n > 64 * 1024 * 1024 {
      ParseLenTooLarge(n, MAX_BULK_LEN);
    } else if n < 0 {
      ParseNegative(n);
    }
  }

  /** A negative number is read as such, or is out of range. */
  lemma ParseNegative(n: int)
    requires n < 0
    ensures ParseI64(SignedDigits(n)) == if -I64_LIMIT <= n then Some(n) else None
  {
    DigitsBack(-n);
    assert SignedDigits(n)[1..] == Digits(-n);
  }

  /** More than 1024 arguments are refused, and a negative number means none. */
  lemma ArgumentCount(n: int, rest: seq<byte>)
    requires n > 1024 || n < 0
    ensures var line := [0x2a] + SignedDigits(n);
            ReadCommand(line + CRLF + rest, 0) ==
              if -I64_LIMIT <= n < 0 then Ok((Some([]), |line| + 2)) else Err(Protocol)
  {
    hide Digits, SignedDigits, ReadLine, ParseI64, Words;
    SignedNoLineEnd(0x2a, n);
    ReadLineBack([0x2a] + SignedDigits(n), CRLF, rest);
    AfterKind(0x2a, SignedDigits(n));
    if n < 0 { ParseNegative(n); } else { ParseLenTooLarge(n, MAX_ARGS); }
  }
}
