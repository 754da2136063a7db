/** `ascii_clean` of `01_generate_identity.py`: how text read from the host is cleaned. */
module HostText {
  import opened Bytes
  import opened Sequences

  /** `raw.decode(errors="ignore").encode("ascii", "ignore")`: exactly the ASCII bytes stay. */
  function AsciiOf(raw: seq<Byte>): (text: string) {
    if raw == [] then "" else (if raw[0] < 0x80 then [raw[0] as int as char] else "") + AsciiOf(raw[1..])
  }

  predicate KeptChar(c: char) {
    ' ' <= c <= '~' && c != '"' && c != '\\' && c != '|'
  }

  function Keep(s: string): string {
    if s == "" then "" else (if KeptChar(s[0]) then [s[0]] else "") + Keep(s[1..])
  }

  function NonEmpty(parts: seq<string>): seq<string> {
    if parts == [] then [] else (if parts[0] == "" then [] else [parts[0]]) + NonEmpty(parts[1..])
  }

  /** `text.split()` where blanks are the only white space. */
  function Words(s: string): seq<string> {
    NonEmpty(Split(s, ' '))
  }

  /** `ascii_clean` without a fallback. */
  function AsciiClean(s: string): string {
    Join(Words(Keep(s)), ' ')
  }

  predicate AllKept(s: string) {
    forall i :: 0 <= i < |s| ==> KeptChar(s[i])
  }

  predicate IsWord(w: string) {
    w != "" && ' ' !in w && AllKept(w)
  }

  predicate AllWords(words: seq<string>) {
    forall i :: 0 <= i < |words| ==> IsWord(words[i])
  }

  lemma {:induction false} KeepKeeps(s: string)
    ensures AllKept(Keep(s))
    ensures AllKept(s) ==> Keep(s) == s
    ensures forall c :: c in Keep(s) <==> c in s && KeptChar(c)
  {
    hide KeptChar;
    if s != "" {
      KeepKeeps(s[1..]);
      assert s == [s[0]] + s[1..];
    }
  }

  lemma {:induction false} NonEmptyParts(parts: seq<string>)
    ensures forall w :: w in NonEmpty(parts) <==> w in parts && w != ""
    ensures (forall i :: 0 <= i < |parts| ==> parts[i] != "") ==> NonEmpty(parts) == parts
  {
    if parts != [] {
      NonEmptyParts(parts[1..]);
      assert parts == [parts[0]] + parts[1..];
    }
  }

  /** Every character of a piece is one of the text, and not the separator. */
  lemma {:induction false} PieceChars(s: string, sep: char, i: nat)
    requires i < |Split(s, sep)|
    ensures forall c :: c in Split(s, sep)[i] ==> c in s && c != sep
  {
    if s != "" {
      var rest := Split(s[1..], sep);
      assert s == [s[0]] + s[1..];
      if s[0] == sep {
        if i > 0 {
          PieceChars(s[1..], sep, i - 1);
          assert Split(s, sep)[i] == rest[i - 1];
        }
      } else {
        PieceChars(s[1..], sep, i);
        assert i == 0 ==> Split(s, sep)[i] == [s[0]] + rest[0];
        assert i > 0 ==> Split(s, sep)[i] == rest[i];
      }
    }
  }

  /** Every other character of the text is in some piece. */
  lemma {:induction false} CharInPiece(s: string, sep: char, c: char)
    requires c in s && c != sep
    ensures exists i :: 0 <= i < |Split(s, sep)| && c in Split(s, sep)[i]
  {
    var rest, all := Split(s[1..], sep), Split(s, sep);
    if s[0] == c {
      assert c in all[0];
    } else {
      CharInPiece(s[1..], sep, c);
      var i :| 0 <= i < |rest| && c in rest[i];
      if s[0] == sep {
        assert all[i + 1] == rest[i];
      } else {
        assert c in all[i];
      }
    }
  }

  lemma PieceIsWord(s: string, i: nat)
    requires AllKept(s) && i < |Split(s, ' ')| && Split(s, ' ')[i] != ""
    ensures IsWord(Split(s, ' ')[i])
  {
    hide Split, KeptChar;
    PieceChars(s, ' ', i);
    var w := Split(s, ' ')[i];
    forall k | 0 <= k < |w|
      ensures KeptChar(w[k])
    {
      assert w[k] in w;
    }
  }

  lemma WordsAreWords(s: string)
    requires AllKept(s)
    ensures AllWords(Words(s))
  {
    hide Split, NonEmpty, IsWord, AllKept;
    NonEmptyParts(Split(s, ' '));
    forall i | 0 <= i < |Words(s)|
      ensures IsWord(Words(s)[i])
    {
      var w := Words(s)[i];
      assert w in Words(s);
      var j :| 0 <= j < |Split(s, ' ')| && Split(s, ' ')[j] == w;
      PieceIsWord(s, j);
    }
  }

  lemma {:induction false} JoinIsKept(words: seq<string>)
    requires AllWords(words)
    ensures AllKept(Join(words, ' '))
    ensures Join(words, ' ') == "" <==> words == []
  {
    if |words| > 1 {
      JoinIsKept(words[1..]);
    }
  }

  /** A sentence of words reads back as these words. */
  lemma WordsOfJoin(words: seq<string>)
    requires AllWords(words)
    ensures Words(Join(words, ' ')) == words
  {
    hide Split, Join;
    if words == [] {
      NothingSplits();
    } else {
      SplitJoin(words, ' ');
      NonEmptyParts(words);
    }
  }

  lemma NothingSplits()
    ensures Split<char>([], ' ') == [[]] && Join<char>([], ' ') == []
  {
  }

  /** Cleaning keeps the words of the kept characters, and cleaning again changes nothing. */
  lemma CleanTwice(s: string)
    ensures Words(AsciiClean(s)) == Words(Keep(s))
    ensures AllKept(AsciiClean(s)) && AsciiClean(AsciiClean(s)) == AsciiClean(s)
  {
    hide Keep, Words, Join, IsWord, KeptChar;
    KeepKeeps(s);
    WordsAreWords(Keep(s));
    JoinIsKept(Words(Keep(s)));
    WordsOfJoin(Words(Keep(s)));
    KeepKeeps(AsciiClean(s));
  }

  lemma CharMakesWord(s: string, c: char)
    requires c in s && c != ' '
    ensures Words(s) != []
  {
    hide Split, NonEmpty;
    CharInPiece(s, ' ', c);
    NonEmptyParts(Split(s, ' '));
    var i :| 0 <= i < |Split(s, ' ')| && c in Split(s, ' ')[i];
    assert Split(s, ' ')[i] in Words(s);
  }

  /** Nothing is left exactly of text without a kept character other than blanks. */
  lemma CleanIsEmpty(s: string)
    ensures AsciiClean(s) == "" <==> forall c :: c in s ==> c == ' ' || !KeptChar(c)
  {
    hide Keep, Join, IsWord, KeptChar, NonEmpty, Split;
    var kept := Keep(s);
    KeepKeeps(s);
    WordsAreWords(kept);
    JoinIsKept(Words(kept));
    if Words(kept) == [] {
      forall c | c in s && c != ' '
        ensures !KeptChar(c)
      {
        if KeptChar(c) {
          CharMakesWord(kept, c);
        }
      }
    } else {
      NonEmptyParts(Split(kept, ' '));
      var w := Words(kept)[0];
      assert w in Words(kept) && w in Split(kept, ' ') && w[0] in w;
      var j :| 0 <= j < |Split(kept, ' ')| && Split(kept, ' ')[j] == w;
      PieceChars(kept, ' ', j);
      assert w[0] in kept && w[0] != ' ';
    }
  }

  /** The cleaned form of a string of a structure. */
  function Cleaned(raw: seq<Byte>): string {
    AsciiClean(AsciiOf(raw))
  }

  function CleanedAll(strings: seq<seq<Byte>>): (r: seq<string>)
    ensures |r| == |strings|
  {
    seq(|strings|, i requires 0 <= i < |strings| => Cleaned(strings[i]))
  }

  // ----- what cleaning keeps, in plain terms -----

  /** A printable ASCII character other than a double quote, a backslash or a bar. */
  predicate Plain(c: char) {
    32 <= c as int <= 126 && c as int != 34 && c as int != 92 && c as int != 124
  }

  /** From a position on, these are the places of the plain characters, and this is their text. */
  predicate PlainAt(text: string, from: nat, places: seq<nat>, kept: string) {
    && |places| == |kept| && (forall i, j :: 0 <= i < j < |places| ==> places[i] < places[j])
    && (forall i :: 0 <= i < |places| ==>
          from <= places[i] < |text| && Plain(text[places[i]]) && kept[i] == text[places[i]])
    && forall k :: from <= k < |text| && Plain(text[k]) ==> k in places
  }

  lemma FirstPlain(text: string, from: nat, rest: seq<nat>, kept: string)
    requires from < |text| && PlainAt(text, from + 1, rest, kept) && Plain(text[from])
    ensures PlainAt(text, from, [from] + rest, [text[from]] + kept)
  {
    hide Plain;
    var places, all := [from] + rest, [text[from]] + kept;
    forall i | 0 <= i < |places|
      ensures from <= places[i] < |text| && Plain(text[places[i]]) && all[i] == text[places[i]]
    {
      if i > 0 {
        assert places[i] == rest[i - 1] && all[i] == kept[i - 1];
      }
    }
    Rising(from, rest);
    assert places[0] == from && forall k :: k in rest ==> k in places;
  }

  lemma {:induction false} KeepMeans(text: string, from: nat) returns (places: seq<nat>)
    requires from <= |text|
    ensures PlainAt(text, from, places, Keep(text[from..]))
    decreases |text| - from
  {
    hide PlainAt, Plain, KeptChar;
    if from == |text| {
      places := [];
      NonePlain(text);
    } else {
      places := KeepMeans(text, from + 1);
      var rest := Keep(text[from + 1..]);
      assert text[from..][1..] == text[from + 1..] && text[from..][0] == text[from];
      PlainIsKept(text[from]);
      if Plain(text[from]) {
        FirstPlain(text, from, places, rest);
        places := [from] + places;
      } else {
        NotPlain(text, from, places, rest);
        assert "" + rest == rest;
      }
    }
  }

  lemma PlainIsKept(c: char)
    ensures Plain(c) <==> KeptChar(c)
  {
  }

  lemma NonePlain(text: string)
    ensures PlainAt(text, |text|, [], "")
  {
  }

  lemma NotPlain(text: string, from: nat, places: seq<nat>, kept: string)
    requires from < |text| && PlainAt(text, from + 1, places, kept) && !Plain(text[from])
    ensures PlainAt(text, from, places, kept)
  {
    hide Plain;
  }

  predicate Blanks(s: string) {
    forall i :: 0 <= i < |s| ==> s[i] == ' '
  }

  /** A text of words with gaps of blanks: before the first, between any two, and after the last. */
  function Spaced(gaps: seq<string>, words: seq<string>): string
    requires |gaps| == |words| + 1
    decreases |words|
  {
    gaps[0] + if words == [] then "" else words[0] + Spaced(gaps[1..], words[1..])
  }

  predicate IsBare(w: string) {
    w != "" && forall i :: 0 <= i < |w| ==> w[i] != ' '
  }

  predicate GapsApart(gaps: seq<string>, words: seq<string>) {
    && |gaps| == |words| + 1 && (forall i :: 0 <= i < |gaps| ==> Blanks(gaps[i]))
    && (forall i :: 0 < i < |gaps| - 1 ==> gaps[i] != "") && forall i :: 0 <= i < |words| ==> IsBare(words[i])
  }

  /** The words of a text are what stands between its blanks. */
  lemma {:induction false} WordsMean(s: string) returns (gaps: seq<string>)
    ensures |gaps| == |Words(s)| + 1 && GapsApart(gaps, Words(s)) && s == Spaced(gaps, Words(s))
    ensures s != "" ==> (gaps[0] == "" <==> s[0] != ' ')
    decreases |s|
  {
    hide GapsApart, Spaced, Blanks, IsBare;
    if s == "" {
      gaps := [""];
      NoWords();
    } else {
      var rest := WordsMean(s[1..]);
      assert s == [s[0]] + s[1..];
      if s[0] == ' ' {
        WiderGap(s[1..], rest, Words(s[1..]));
        WordsAfterBlank(s);
        gaps := [" " + rest[0]] + rest[1..];
      } else if s[1..] == "" || s[1..][0] == ' ' {
        LoneLetter(s);
        NoWords();
        NewWord(s[0], s[1..], rest, Words(s[1..]));
        gaps := [""] + rest;
      } else {
        LongerFirst(s);
        WordGrows(s[0], s[1..], rest, Words(s[1..]));
        gaps := rest;
      }
    }
  }

  lemma NoWords()
    ensures Words("") == [] && GapsApart([""], []) && Spaced([""], []) == ""
  {
    assert Split<char>([], ' ') == [[]];
    assert [""][1..] == [];
  }

  lemma WordsAfterBlank(s: string)
    requires s != "" && s[0] == ' '
    ensures Words(s) == Words(s[1..])
  {
    var rest := Split(s[1..], ' ');
    assert ([[]] + rest)[1..] == rest;
  }

  lemma WiderGap(text: string, gaps: seq<string>, words: seq<string>)
    requires GapsApart(gaps, words) && text == Spaced(gaps, words)
    ensures GapsApart([" " + gaps[0]] + gaps[1..], words) && " " + text == Spaced([" " + gaps[0]] + gaps[1..], words)
  {
    var wider := [" " + gaps[0]] + gaps[1..];
    assert wider[1..] == gaps[1..];
    assert Blanks(wider[0]) by {
      assert Blanks(gaps[0]);
    }
  }

  lemma FirstPiece(s: string)
    ensures Split(s, ' ')[0] == "" <==> s == "" || s[0] == ' '
  {
  }

  lemma LoneLetter(s: string)
    requires s != "" && s[0] != ' ' && (s[1..] == "" || s[1..][0] == ' ')
    ensures Words(s) == [[s[0]]] + Words(s[1..])
  {
    var rest := Split(s[1..], ' ');
    FirstPiece(s[1..]);
    assert [s[0]] + rest[0] == [s[0]];
    assert ([[s[0]]] + rest[1..])[1..] == rest[1..];
  }

  lemma NewWord(c: char, text: string, gaps: seq<string>, words: seq<string>)
    requires GapsApart(gaps, words) && text == Spaced(gaps, words) && c != ' ' && (gaps[0] != "" || words == [])
    ensures GapsApart([""] + gaps, [[c]] + words) && [c] + text == Spaced([""] + gaps, [[c]] + words)
  {
    var more, all := [""] + gaps, [[c]] + words;
    assert more[1..] == gaps && all[1..] == words;
    assert IsBare([c]) && Blanks("");
    assert forall i :: 0 < i < |more| ==> more[i] == gaps[i - 1];
    assert forall i :: 0 < i < |all| ==> all[i] == words[i - 1];
  }

  lemma LongerFirst(s: string)
    requires |s| >= 2 && s[0] != ' ' && s[1] != ' '
    ensures Words(s[1..]) != [] && Words(s) == [[s[0]] + Words(s[1..])[0]] + Words(s[1..])[1..]
  {
    var rest := Split(s[1..], ' ');
    FirstPiece(s[1..]);
    assert ([[s[0]] + rest[0]] + rest[1..])[1..] == rest[1..];
  }

  lemma WordGrows(c: char, text: string, gaps: seq<string>, words: seq<string>)
    requires GapsApart(gaps, words) && text == Spaced(gaps, words) && c != ' ' && gaps[0] == "" && words != []
    ensures GapsApart(gaps, [[c] + words[0]] + words[1..]) && [c] + text == Spaced(gaps, [[c] + words[0]] + words[1..])
  {
    var all := [[c] + words[0]] + words[1..];
    assert all[1..] == words[1..];
    assert IsBare(words[0]);
    assert forall i :: 0 < i < |all| ==> all[i] == words[i];
  }

  /**
   Cleaned text is the words of the plain characters with one blank between them: the plain characters of the text, in
   their order, are the words with gaps of blanks.
   */
  lemma CleanMeans(text: string) returns (places: seq<nat>, kept: string, gaps: seq<string>, words: seq<string>)
    ensures PlainAt(text, 0, places, kept) && GapsApart(gaps, words) && kept == Spaced(gaps, words)
    ensures AsciiClean(text) == Join(words, ' ')
  {
    hide PlainAt, GapsApart, Spaced, Words, Keep, Join;
    assert text[0..] == text;
    kept, words := Keep(text), Words(Keep(text));
    places := KeepMeans(text, 0);
    gaps := WordsMean(kept);
  }
}
