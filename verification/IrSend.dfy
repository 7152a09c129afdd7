/** The `set_transmitters` packet of IRSend.cpp: words joined into a bounded character buffer. */
module IrSend {
  const NUL := 0 as char

  /** The words separated by single spaces. */
  function Joined(first: string, rest: seq<string>): string {
    if rest == [] then first else Joined(first, rest[..|rest| - 1]) + " " + rest[|rest| - 1]
  }

  /** `buffer` holds `text` as a C string. */
  predicate Holds(buffer: array<char>, text: string)
    reads buffer
  {
    |text| < buffer.Length && buffer[..|text|] == text && buffer[|text|] == NUL && NUL !in text
  }

  method Strlen(buffer: array<char>, ghost text: string) returns (n: nat)
    requires Holds(buffer, text)
    ensures n == |text|
  {
    forall i | 0 <= i < |text|
      ensures buffer[i] != NUL
    {
      assert buffer[i] == buffer[..|text|][i] == text[i];
      assert text[i] in text;
    }
    n := 0;
    while buffer[n] != NUL
      invariant n <= |text|
      decreases |text| - n
    {
      n := n + 1;
    }
  }

  /** Writes `text` and its terminator over the terminator of what the buffer holds. */
  method Append(buffer: array<char>, pos: nat, ghost before: string, text: string)
    requires Holds(buffer, before) && pos == |before|
    requires pos + |text| < buffer.Length && NUL !in text
    modifies buffer
    ensures Holds(buffer, before + text)
  {
    for i := 0 to |text|
      invariant buffer[..pos] == before
      invariant buffer[pos..pos + i] == text[..i]
    {
      buffer[pos + i] := text[i];
      assert buffer[pos..pos + i + 1] == text[..i] + [text[i]];
    }
    buffer[pos + |text|] := NUL;
    assert buffer[..pos + |text|] == buffer[..pos] + buffer[pos..pos + |text|];
    assert text[..|text|] == text;
  }

  lemma {:induction false} JoinedGrows(first: string, rest: seq<string>, n: nat)
    requires n <= |rest|
    ensures |Joined(first, rest[..n])| <= |Joined(first, rest)|
  {
    if n < |rest| {
      assert rest[..|rest| - 1][..n] == rest[..n];
      JoinedGrows(first, rest[..|rest| - 1], n);
    } else {
      assert rest[..n] == rest;
    }
  }

  /**
   The packet is refused exactly when there is no argument or the joined words and a terminator do not leave a
   cell to spare; otherwise the buffer ends up holding the words joined by single spaces and a newline, which
   with their terminator fit into `packetSize` cells of its `packetSize + 1`.
   */
  method BuildPacket(packetSize: nat, argv: seq<string>) returns (ok: bool, buffer: array<char>)
    requires forall word <- argv :: NUL !in word
    ensures buffer.Length == packetSize + 1
    ensures ok <==> |argv| >= 2 && |Joined(argv[0], argv[1..])| + 1 < packetSize
    ensures ok ==> |Joined(argv[0], argv[1..]) + "\n"| + 1 <= packetSize
    ensures ok ==> Holds(buffer, Joined(argv[0], argv[1..]) + "\n")
  {
    buffer := new char[packetSize + 1](_ => NUL);
    if |argv| < 2 {
      return false, buffer;
    }
    var directive, codes := argv[0], argv[1..];
    var code := codes[0];
    assert directive in argv && code in argv;
    assert Holds(buffer, "");
    hide Joined;
    hide Holds;
    JoinedNext(directive, codes, 0);
    JoinedGrows(directive, codes, 1);
    if !(|directive| + |code| + 2 < packetSize) {
      return false, buffer;
    }
    assert "" + (directive + " " + code) == Joined(directive, codes[..1]);
    Append(buffer, 0, "", directive + " " + code);
    var optind := 1;
    while optind < |codes|
      invariant 1 <= optind <= |codes|
      invariant Holds(buffer, Joined(directive, codes[..optind]))
      invariant |Joined(directive, codes[..optind])| + 1 < packetSize
    {
      code := codes[optind];
      assert code in argv;
      JoinedNext(directive, codes, optind);
      JoinedGrows(directive, codes, optind + 1);
      ghost var before := Joined(directive, codes[..optind]);
      var length := Strlen(buffer, before);
      optind := optind + 1;
      if !(length + |code| + 2 < packetSize) {
        return false, buffer;
      }
      Append(buffer, length, before, " " + code);
    }
    assert codes[..optind] == codes;
    var length := Strlen(buffer, Joined(directive, codes));
    Append(buffer, length, Joined(directive, codes), "\n");
    ok := true;
  }

  lemma JoinedNext(directive: string, codes: seq<string>, n: nat)
    requires n < |codes|
    ensures Joined(directive, codes[..n + 1]) == Joined(directive, codes[..n]) + (" " + codes[n])
    ensures Joined(directive, codes[..0]) == directive
  {
    assert codes[..n + 1][..n] == codes[..n];
  }

  // ---------- The receiver gets the words back ----------

  /** The words with more text glued to the last one. */
  function Glued(words: seq<string>, text: string): (more: seq<string>)
    requires words != []
    ensures |more| == |words|
  {
    words[..|words| - 1] + [words[|words| - 1] + text]
  }

  /** The words of a line. */
  function Split(line: string): (words: seq<string>)
    ensures words != []
  {
    if line == [] then [""]
    else
      var words, c := Split(line[..|line| - 1]), line[|line| - 1];
      if c == ' ' then words + [""] else Glued(words, [c])
  }

  lemma GluedTwice(words: seq<string>, a: string, b: string)
    requires words != []
    ensures Glued(Glued(words, a), b) == Glued(words, a + b)
  {
    var once := Glued(words, a);
    assert once[|words| - 1] + b == words[|words| - 1] + (a + b);
    assert once[..|words| - 1] == words[..|words| - 1];
  }

  lemma SplitAppend(line: string, c: char)
    ensures Split(line + [c]) == if c == ' ' then Split(line) + [""] else Glued(Split(line), [c])
  {
  }

  lemma GluedNothing(words: seq<string>)
    requires words != []
    ensures Glued(words, "") == words
  {
    assert words[|words| - 1] + "" == words[|words| - 1];
  }

  lemma {:induction false} SplitWord(line: string, word: string)
    requires ' ' !in word
    ensures Split(line + word) == Glued(Split(line), word)
  {
    hide Glued;
    hide Split;
    if word == [] {
      assert line + word == line;
      GluedNothing(Split(line));
    } else {
      var n := |word| - 1;
      var start, c := word[..n], word[n];
      assert c in word;
      SplitWord(line, start);
      SplitAppend(line + start, c);
      GluedTwice(Split(line), start, [c]);
      assert start + [c] == word;
      assert line + start + [c] == line + word;
    }
  }

  lemma StartWord(words: seq<string>, word: string)
    ensures Glued(words + [""], word) == words + [word]
  {
    assert "" + word == word;
  }

  lemma JoinedLast(first: string, rest: seq<string>)
    requires rest != []
    ensures Joined(first, rest) == Joined(first, rest[..|rest| - 1]) + [' '] + rest[|rest| - 1]
  {
  }

  lemma Regrouped(first: string, rest: seq<string>)
    requires rest != []
    ensures [first] + rest[..|rest| - 1] + [rest[|rest| - 1]] == [first] + rest
  {
  }

  lemma SplitFirst(first: string)
    requires ' ' !in first
    ensures Split(first) == [first]
  {
    SplitWord("", first);
    assert "" + first == first;
    StartWord([], first);
    assert [] + [""] == [""] && [] + [first] == [first];
    hide Glued;
  }

  /** Words without spaces survive the packet: splitting the joined line gives them back. */
  lemma {:induction false} SplitJoined(first: string, rest: seq<string>)
    requires ' ' !in first && forall word <- rest :: ' ' !in word
    ensures Split(Joined(first, rest)) == [first] + rest
  {
    hide Glued;
    hide Split;
    if rest == [] {
      SplitFirst(first);
    } else {
      JoinedLast(first, rest);
      hide Joined;
      var init, word := rest[..|rest| - 1], rest[|rest| - 1];
      assert word in rest;
      SplitJoined(first, init);
      var line := Joined(first, init);
      SplitAppend(line, ' ');
      SplitWord(line + [' '], word);
      StartWord([first] + init, word);
      Regrouped(first, rest);
    }
  }
}
