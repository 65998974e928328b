/** The text formats of keys: the identity file and the authorised-clients file. */
module KeyFiles {
  import opened Wrappers
  import opened Base64
  import T = TextEncoding

  type Key = seq<Byte>

  datatype Keypair = Keypair(public: Key, private: Key)

  datatype Error = Malformed | BadBase64 | LineTooLong

  // ----- White space, fields and lines -----

  /** unicode.IsSpace */
  predicate IsSpace(c: char) {
    var u := c as int;
    || 0x09 <= u <= 0x0D || u == 0x20 || u == 0x85 || u == 0xA0 || u == 0x1680
    || 0x2000 <= u <= 0x200A || u == 0x2028 || u == 0x2029 || u == 0x202F || u == 0x205F || u == 0x3000
  }

  /** The length of the leading run of white space, or of anything else. */
  function RunLength(s: string, space: bool): (n: nat)
    ensures n <= |s|
    ensures forall i :: 0 <= i < n ==> IsSpace(s[i]) == space
    ensures n < |s| ==> IsSpace(s[n]) != space
  {
    if s != "" && IsSpace(s[0]) == space then 1 + RunLength(s[1..], space) else 0
  }

  function FirstField(s: string): string {
    s[..RunLength(s, false)]
  }

  /** strings.Fields */
  function Fields(s: string): seq<string>
    decreases |s|
  {
    var t := s[RunLength(s, true)..];
    if t == "" then [] else [FirstField(t)] + Fields(t[RunLength(t, false)..])
  }

  function TrimRight(s: string): string {
    if s != "" && IsSpace(s[|s| - 1]) then TrimRight(s[..|s| - 1]) else s
  }

  /** strings.TrimSpace */
  function TrimSpace(s: string): string {
    TrimRight(s[RunLength(s, true)..])
  }

  /** A token and what may follow it on its line. */
  ghost predicate TokenThenRest(tok: string, rest: string) {
    && tok != "" && (forall i :: 0 <= i < |tok| ==> !IsSpace(tok[i]))
    && (rest != "" ==> IsSpace(rest[0]))
  }

  lemma TokenRun(tok: string, rest: string)
    requires TokenThenRest(tok, rest)
    ensures RunLength(tok + rest, false) == |tok| && RunLength(tok + rest, true) == 0
  {
    var s := tok + rest;
    assert s[0] == tok[0];
    assert forall i :: 0 <= i < |tok| ==> s[i] == tok[i];
    assert rest != "" ==> s[|tok|] == rest[0];
  }

  lemma SpacesRun(spaces: string, s: string)
    requires forall i :: 0 <= i < |spaces| ==> IsSpace(spaces[i])
    requires s != "" ==> !IsSpace(s[0])
    ensures RunLength(spaces + s, true) == |spaces| && (spaces + s)[|spaces|..] == s
  {
    var all := spaces + s;
    assert forall i :: 0 <= i < |spaces| ==> all[i] == spaces[i];
    assert s != "" ==> all[|spaces|] == s[0];
  }

  lemma {:induction false} TrimRightKeepsToken(tok: string, rest: string) returns (kept: string)
    requires TokenThenRest(tok, rest)
    ensures TokenThenRest(tok, kept) && TrimRight(tok + rest) == tok + kept
  {
    var s := tok + rest;
    if rest != "" && IsSpace(rest[|rest| - 1]) {
      assert s[..|s| - 1] == tok + rest[..|rest| - 1];
      kept := TrimRightKeepsToken(tok, rest[..|rest| - 1]);
    } else {
      kept := rest;
      if rest == "" {
        assert s[|s| - 1] == tok[|tok| - 1];
      }
    }
  }

  lemma {:induction false} TrimRightSpaces(spaces: string)
    requires forall i :: 0 <= i < |spaces| ==> IsSpace(spaces[i])
    ensures TrimRight(spaces) == ""
  {
    if spaces != "" {
      TrimRightSpaces(spaces[..|spaces| - 1]);
    }
  }

  /** White space is the blank, five controls and the spaces of Unicode. */
  lemma SpacesAre(c: char)
    ensures IsSpace(c) <==>
            c in {'\t', '\n', '\U{0B}', '\U{0C}', '\r', ' ', '\U{85}', '\U{A0}', '\U{1680}', '\U{2000}', '\U{2001}',
                  '\U{2002}', '\U{2003}', '\U{2004}', '\U{2005}', '\U{2006}', '\U{2007}', '\U{2008}', '\U{2009}',
                  '\U{200A}', '\U{2028}', '\U{2029}', '\U{202F}', '\U{205F}', '\U{3000}'}
  {
  }

  // ----- The identity file -----

  /** Two base64 lines: the private key, then the public key. */
  function IdentityText(kp: Keypair): string {
    Encode(kp.private) + "\n" + Encode(kp.public) + "\n"
  }

  function ParseIdentity(text: string): Result<Keypair, Error> {
    var fields := Fields(text);
    if |fields| < 2 then Err(Malformed)
    else
      match (Decode(fields[0]), Decode(fields[1]))
      case (Some(private), Some(public)) => Ok(Keypair(public, private))
      case _ => Err(BadBase64)
  }

  /** A file needs two fields, and both must be base64; anything behind them is ignored. */
  lemma IdentityErrors(text: string)
    ensures ParseIdentity(text) == Err(Malformed) <==> |Fields(text)| < 2
    ensures ParseIdentity(text) == Err(BadBase64) <==>
              |Fields(text)| >= 2 && (Decode(Fields(text)[0]).None? || Decode(Fields(text)[1]).None?)
    ensures ParseIdentity(text).Ok? ==>
              && Decode(Fields(text)[0]) == Some(ParseIdentity(text).value.private)
              && Decode(Fields(text)[1]) == Some(ParseIdentity(text).value.public)
  {
    hide Fields, Decode;
  }

  lemma EncodedToken(k: Key)
    ensures forall i :: 0 <= i < |Encode(k)| ==> !IsSpace(Encode(k)[i]) && Encode(k)[i] != '#'
    ensures k != [] <==> Encode(k) != ""
  {
    EncodeChars(k);
    forall i | 0 <= i < |Encode(k)| ensures !IsSpace(Encode(k)[i]) && Encode(k)[i] != '#' {
      assert IsTextChar(Encode(k)[i]);
    }
  }

  lemma FieldsOfToken(tok: string, rest: string)
    requires TokenThenRest(tok, rest)
    ensures Fields(tok + rest) == [tok] + Fields(rest)
  {
    TokenRun(tok, rest);
    assert (tok + rest)[0..] == tok + rest;
    assert (tok + rest)[..|tok|] == tok && (tok + rest)[|tok|..] == rest;
  }

  lemma FieldsSkipSpace(rest: string)
    ensures Fields("\n" + rest) == Fields(rest)
  {
    var s := "\n" + rest;
    assert s[1..] == rest;
    assert RunLength(s, true) == 1 + RunLength(rest, true);
    assert s[RunLength(s, true)..] == rest[RunLength(rest, true)..];
  }

  /** Leading white space of any kind and length separates nothing. */
  lemma FieldsAfterSpaces(spaces: string, rest: string)
    requires forall i :: 0 <= i < |spaces| ==> IsSpace(spaces[i])
    ensures Fields(spaces + rest) == Fields(rest)
  {
    hide RunLength, Fields, IsSpace;
    SpacesThenRun(spaces, rest);
    var n := RunLength(rest, true);
    assert (spaces + rest)[|spaces| + n..] == rest[n..];
    FieldsBehindSpace(spaces + rest);
    FieldsBehindSpace(rest);
  }

  lemma FieldsBehindSpace(s: string)
    ensures Fields(s) == Fields(s[RunLength(s, true)..])
  {
    var t := s[RunLength(s, true)..];
    assert RunLength(t, true) == 0 && t[0..] == t;
    hide RunLength, FirstField;
  }

  lemma {:induction false} SpacesThenRun(spaces: string, rest: string)
    requires forall i :: 0 <= i < |spaces| ==> IsSpace(spaces[i])
    ensures RunLength(spaces + rest, true) == |spaces| + RunLength(rest, true)
  {
    if spaces == "" {
      assert spaces + rest == rest;
    } else {
      assert (spaces + rest)[1..] == spaces[1..] + rest && (spaces + rest)[0] == spaces[0];
      SpacesThenRun(spaces[1..], rest);
    }
  }

  lemma FieldsOfNothing()
    ensures Fields("") == [] && Fields("\n") == []
  {
    FieldsSkipSpace("");
    assert "\n" + "" == "\n";
  }

  /** The identity text written for a key pair reads back to it exactly if both keys are
      non-empty; otherwise it is malformed. */
  lemma IdentityRoundTrip(kp: Keypair)
    ensures ParseIdentity(IdentityText(kp)) ==
            if kp.private != [] && kp.public != [] then Ok(kp) else Err(Malformed)
  {
    var a, b := Encode(kp.private), Encode(kp.public);
    EncodedToken(kp.private);
    EncodedToken(kp.public);
    FieldsOfNothing();
    var tail := b + "\n";
    hide IsSpace, Fields, Encode;
    assert Fields(tail) == if b == "" then [] else [b] by {
      if b != "" {
        assert IsSpace("\n"[0]) by { NewlineIsSpace(); }
        FieldsOfToken(b, "\n");
      } else {
        assert tail == "\n";
      }
    }
    FieldsSkipSpace(tail);
    assert IdentityText(kp) == a + ("\n" + tail);
    if a != "" {
      assert IsSpace(("\n" + tail)[0]) by { NewlineIsSpace(); }
      FieldsOfToken(a, "\n" + tail);
    } else {
      assert IdentityText(kp) == "\n" + tail;
    }
    DecodeOfEncode(kp.private);
    DecodeOfEncode(kp.public);
  }

  lemma NewlineIsSpace()
    ensures IsSpace('\n')
  {
  }

  // ----- The authorised-clients file -----

  function Utf8Length(s: string): nat {
    if s == "" then 0
    else
      var u := s[0] as int;
      (if u < 0x80 then 1 else if u < 0x800 then 2 else if u < 0x1_0000 then 3 else 4) + Utf8Length(s[1..])
  }

  /** A scanner gives up on a line that fills its buffer of 64 KiB. */
  const MAX_LINE: nat := 64 * 1024 - 1

  function LineLength(s: string): (n: nat)
    ensures n <= |s|
    ensures forall i :: 0 <= i < n ==> s[i] != '\n'
    ensures n < |s| ==> s[n] == '\n'
  {
    if s != "" && s[0] != '\n' then 1 + LineLength(s[1..]) else 0
  }

  function DropCR(line: string): string {
    if line != "" && line[|line| - 1] == '\r' then line[..|line| - 1] else line
  }

  datatype Line = Skipped | KeyLine(key: Key) | BadLine

  /** Blank lines and comments are skipped; otherwise the first field is the key. */
  function ReadLine(line: string): Line {
    var text := TrimSpace(line);
    if text == "" || "#" <= text then Skipped
    else
      match Decode(FirstField(text))
      case Some(k) => KeyLine(k)
      case None => BadLine
  }

  /** A bad key discards everything; an over-long line keeps the keys before it. Both are errors. */
  function Parsed(content: string, keys: seq<Key>): (seq<Key>, Option<Error>)
    decreases |content|
  {
    if content == "" then (keys, None)
    else
      var n := LineLength(content);
      if Utf8Length(content[..n]) > MAX_LINE then (keys, Some(LineTooLong))
      else
        var rest := if n < |content| then content[n + 1..] else "";
        match ReadLine(DropCR(content[..n]))
        case Skipped => Parsed(rest, keys)
        case KeyLine(k) => Parsed(rest, keys + [k])
        case BadLine => ([], Some(BadBase64))
  }

  /** The file cut at its line breaks; a last line may lack one. */
  function Lines(content: string): seq<string>
    decreases |content|
  {
    if content == "" then []
    else
      var n := LineLength(content);
      [content[..n]] + Lines(if n < |content| then content[n + 1..] else "")
  }

  predicate TooLong(line: string) {
    Utf8Length(line) > MAX_LINE
  }

  predicate IsBad(line: string) {
    ReadLine(DropCR(line)).BadLine?
  }

  predicate IsSkipped(line: string) {
    ReadLine(DropCR(line)).Skipped?
  }

  /** The keys on the lines that have one. */
  function LineKeys(lines: seq<string>): seq<Key> {
    if lines == [] then []
    else
      (match ReadLine(DropCR(lines[0]))
       case KeyLine(k) => [k]
       case _ => []) + LineKeys(lines[1..])
  }

  /** No line is too long for the scanner, and none is a bad key. */
  ghost predicate AllSound(lines: seq<string>) {
    forall l :: l in lines ==> !TooLong(l) && !IsBad(l)
  }

  /** Every line is blank or a comment. */
  ghost predicate AllSkipped(lines: seq<string>) {
    forall l :: l in lines ==> IsSkipped(l)
  }

  lemma SoundCons(line: string, lines: seq<string>)
    ensures AllSound([line] + lines) <==> !TooLong(line) && !IsBad(line) && AllSound(lines)
    ensures AllSkipped([line] + lines) <==> IsSkipped(line) && AllSkipped(lines)
    ensures ([line] + lines)[1..] == lines
  {
    hide IsBad, TooLong, IsSkipped;
    var all := [line] + lines;
    assert all[0] == line && all[1..] == lines;
    assert forall l :: l in all <==> l == line || l in lines;
  }

  lemma KeysCons(line: string, lines: seq<string>, keys: seq<Key>)
    requires !IsBad(line)
    ensures keys + LineKeys([line] + lines) ==
            (match ReadLine(DropCR(line)) case KeyLine(k) => keys + [k] case _ => keys) + LineKeys(lines)
  {
    SoundCons(line, lines);
    hide ReadLine, DropCR;
  }

  lemma ParsedFirst(content: string, keys: seq<Key>)
    requires content != ""
    ensures var n := LineLength(content);
            var line, rest := content[..n], if n < |content| then content[n + 1..] else "";
            && Lines(content) == [line] + Lines(rest)
            && Parsed(content, keys) ==
               if TooLong(line) then (keys, Some(LineTooLong))
               else
                 match ReadLine(DropCR(line))
                 case Skipped => Parsed(rest, keys)
                 case KeyLine(k) => Parsed(rest, keys + [k])
                 case BadLine => ([], Some(BadBase64))
  {
    hide ReadLine, DropCR, Utf8Length;
  }

  /** A file reads without an error exactly if no line of it is over-long or bad, and then its
      keys are those of its lines in order. */
  lemma {:induction false} ParsedByLines(content: string, keys: seq<Key>)
    ensures Parsed(content, keys).1.None? <==> AllSound(Lines(content))
    ensures Parsed(content, keys).1.None? ==> Parsed(content, keys).0 == keys + LineKeys(Lines(content))
    decreases |content|
  {
    if content != "" {
      var n := LineLength(content);
      var line, rest := content[..n], if n < |content| then content[n + 1..] else "";
      ParsedFirst(content, keys);
      SoundCons(line, Lines(rest));
      var read := ReadLine(DropCR(line));
      ParsedByLines(rest, if read.KeyLine? then keys + [read.key] else keys);
      hide ReadLine, DropCR, TooLong, Lines, LineKeys, Parsed, AllSound;
      if !IsBad(line) {
        KeysCons(line, Lines(rest), keys);
      }
    }
  }

  /** Sound lines contribute no key at all exactly if every one is blank or a comment. */
  lemma {:induction false} NoLineKeys(lines: seq<string>)
    requires AllSound(lines)
    ensures LineKeys(lines) == [] <==> AllSkipped(lines)
  {
    if lines != [] {
      assert lines == [lines[0]] + lines[1..];
      SoundCons(lines[0], lines[1..]);
      NoLineKeys(lines[1..]);
      hide ReadLine, DropCR, TooLong, AllSound, AllSkipped;
    }
  }

  lemma LinesOfLine(line: string, rest: string)
    requires '\n' !in line
    ensures Lines(line + "\n" + rest) == [line] + Lines(rest)
  {
    LineSplits(line, rest);
  }

  lemma SoundKeyLine(key: Key)
    requires key != []
    ensures ReadLine(DropCR(Encode(key))) == KeyLine(key) && '\n' !in Encode(key)
  {
    var e := KeyEntry("", key, "");
    assert LineOf(e) == Encode(key);
    LineHasNoBreak(e);
    ReadEntry(e);
  }

  /** A line above one that is no key. */
  lemma LineThenBadLine(line: string)
    requires '\n' !in line
    ensures Lines(line + "\n" + "!\n") == [line, "!"] && IsBad("!")
  {
    LinesOfLine(line, "!\n");
    LinesOfLine("!", "");
    ExclamationIsBad();
    hide IsBad, LineLength;
    assert "!" + "\n" + "" == "!\n";
    assert Lines("") == [];
  }

  lemma ExclamationIsBad()
    ensures IsBad("!")
  {
    var s := "!";
    assert RunLength(s, true) == 0 && s[0..] == s && TrimSpace(s) == s;
    assert RunLength(s, false) == 1 && FirstField(s) == s;
    assert s[1..] == "" && WithoutLineBreaks(s) == s;
  }

  method LoadAuthorizedKeys(content: string) returns (keys: seq<Key>, err: Option<Error>)
    ensures (keys, err) == Parsed(content, [])
  {
    keys, err := [], None;
    var rest := content;
    while rest != ""
      invariant Parsed(rest, keys) == Parsed(content, [])
      decreases |rest|
    {
      var n := LineLength(rest);
      if Utf8Length(rest[..n]) > MAX_LINE {
        return keys, Some(LineTooLong);
      }
      var line := DropCR(rest[..n]);
      rest := if n < |rest| then rest[n + 1..] else "";
      var text := TrimSpace(line);
      if text == "" || "#" <= text {
        continue;
      }
      var k := Decode(FirstField(text));
      if k.None? {
        return [], Some(BadBase64);
      }
      keys := keys + [k.value];
    }
  }

  /** The length in bytes is that of the UTF-8 encoding, character by character. */
  lemma Utf8LengthIs(c: char, s: string)
    ensures Utf8Length("") == 0
    ensures Utf8Length([c] + s) == |T.EncodeCodePoint(c as int)| + Utf8Length(s)
  {
    assert ([c] + s)[1..] == s;
  }

  lemma {:induction false} AsciiLength(s: string)
    requires forall i :: 0 <= i < |s| ==> s[i] < '\U{80}'
    ensures Utf8Length(s) == |s|
  {
    if s != "" {
      AsciiLength(s[1..]);
    }
  }

  /** A line of ASCII is too long from 65536 characters on. */
  lemma AsciiTooLong(line: string)
    requires forall i :: 0 <= i < |line| ==> line[i] < '\U{80}'
    ensures TooLong(line) <==> |line| >= 65536
  {
    AsciiLength(line);
    hide Utf8Length;
  }

  /** A key stands alone on its line, or before a blank or a tab and any label. */
  lemma LabelledKey(key: Key, gap: char, text: string)
    requires key != [] && (gap == ' ' || gap == '\t') && '\n' !in text
    ensures ReadLine(DropCR(Encode(key) + ([gap] + text))) == KeyLine(key)
  {
    assert ([gap] + text)[0] == gap;
    ReadKeyEntry("", key, [gap] + text);
    assert "" + (Encode(key) + ([gap] + text)) == Encode(key) + ([gap] + text);
  }

  /** What people write in such a file. */
  datatype Entry =
    | KeyEntry(indent: string, key: Key, note: string)
    | Comment(indent: string, text: string)
    | Blank(spaces: string)

  ghost predicate AllSpaces(s: string) {
    forall i :: 0 <= i < |s| ==> IsSpace(s[i]) && s[i] != '\n'
  }

  /** Labels are set off by white space; keys are not empty; no part contains a line break. */
  ghost predicate ValidEntry(e: Entry) {
    match e
    case KeyEntry(indent, key, note) =>
      AllSpaces(indent) && key != [] && (note != "" ==> IsSpace(note[0])) && '\n' !in note
    case Comment(indent, text) => AllSpaces(indent) && '\n' !in text
    case Blank(spaces) => AllSpaces(spaces)
  }

  function LineOf(e: Entry): string {
    match e
    case KeyEntry(indent, key, note) => indent + (Encode(key) + note)
    case Comment(indent, text) => indent + ("#" + text)
    case Blank(spaces) => spaces
  }

  function Render(entries: seq<Entry>): string {
    if entries == [] then "" else LineOf(entries[0]) + "\n" + Render(entries[1..])
  }

  function KeysOf(entries: seq<Entry>): seq<Key> {
    if entries == [] then []
    else (if entries[0].KeyEntry? then [entries[0].key] else []) + KeysOf(entries[1..])
  }

  lemma ReadKeyLine(indent: string, key: Key, note: string)
    requires AllSpaces(indent) && key != [] && (note != "" ==> IsSpace(note[0]))
    ensures ReadLine(indent + (Encode(key) + note)) == KeyLine(key)
  {
    var tok := Encode(key);
    EncodedToken(key);
    assert TokenThenRest(tok, note);
    SpacesRun(indent, tok + note);
    var kept := TrimRightKeepsToken(tok, note);
    TokenRun(tok, kept);
    assert (tok + kept)[..|tok|] == tok && (tok + kept)[0] == tok[0];
    DecodeOfEncode(key);
  }

  lemma ReadCommentLine(indent: string, text: string)
    requires AllSpaces(indent)
    ensures ReadLine(indent + ("#" + text)) == Skipped
  {
    SpacesRun(indent, "#" + text);
    TrimRightKeepsHash(text);
  }

  lemma {:induction false} TrimRightKeepsHash(text: string)
    ensures "#" <= TrimRight("#" + text)
  {
    var s := "#" + text;
    if text != "" && IsSpace(text[|text| - 1]) {
      assert s[..|s| - 1] == "#" + text[..|text| - 1];
      TrimRightKeepsHash(text[..|text| - 1]);
    }
  }

  lemma ReadBlankLine(spaces: string)
    requires AllSpaces(spaces)
    ensures ReadLine(spaces) == Skipped
  {
    SpacesRun(spaces, "");
    assert spaces + "" == spaces;
    assert TrimSpace(spaces) == TrimRight("");
  }

  ghost predicate EndsInCR(s: string) {
    s != "" && s[|s| - 1] == '\r'
  }

  /** Dropping a carriage return does not reach into the token. */
  lemma DropCRKeepsToken(indent: string, tok: string, rest: string) returns (kept: string)
    requires tok != "" && !EndsInCR(tok)
    ensures kept == DropCR(rest) && DropCR(indent + (tok + rest)) == indent + (tok + kept)
  {
    kept := DropCR(rest);
    var line := indent + (tok + rest);
    if rest != "" {
      assert line[|line| - 1] == rest[|rest| - 1];
      assert line[..|line| - 1] == indent + (tok + rest[..|rest| - 1]);
    } else {
      assert line[|line| - 1] == tok[|tok| - 1];
    }
  }

  lemma ReadKeyEntry(indent: string, key: Key, note: string)
    requires ValidEntry(KeyEntry(indent, key, note))
    ensures ReadLine(DropCR(indent + (Encode(key) + note))) == KeyLine(key)
  {
    EncodedToken(key);
    hide ReadLine, Encode;
    assert !EndsInCR(Encode(key)) by { CRIsSpace(); }
    var kept := DropCRKeepsToken(indent, Encode(key), note);
    assert kept != "" ==> kept[0] == note[0];
    ReadKeyLine(indent, key, kept);
  }

  lemma CRIsSpace()
    ensures IsSpace('\r')
  {
  }

  lemma ReadCommentEntry(indent: string, text: string)
    requires ValidEntry(Comment(indent, text))
    ensures ReadLine(DropCR(indent + ("#" + text))) == Skipped
  {
    hide ReadLine;
    var kept := DropCRKeepsToken(indent, "#", text);
    ReadCommentLine(indent, kept);
  }

  /** A line reads as its entry, also after a trailing carriage return is dropped. */
  lemma ReadEntry(e: Entry)
    requires ValidEntry(e)
    ensures ReadLine(DropCR(LineOf(e))) == if e.KeyEntry? then KeyLine(e.key) else Skipped
  {
    match e
    case KeyEntry(indent, key, note) => ReadKeyEntry(indent, key, note);
    case Comment(indent, text) => ReadCommentEntry(indent, text);
    case Blank(spaces) =>
      ReadBlankLine(spaces);
      if EndsInCR(spaces) {
        ReadBlankLine(spaces[..|spaces| - 1]);
      }
  }

  lemma LineHasNoBreak(e: Entry)
    requires ValidEntry(e)
    ensures '\n' !in LineOf(e)
  {
    if e.KeyEntry? {
      EncodedToken(e.key);
      NewlineIsSpace();
    }
  }

  lemma LineSplits(line: string, rest: string)
    requires '\n' !in line
    ensures LineLength(line + "\n" + rest) == |line|
    ensures (line + "\n" + rest)[..|line|] == line && (line + "\n" + rest)[|line| + 1..] == rest
  {
    var s := line + "\n" + rest;
    assert s[|line|] == '\n';
    assert forall i :: 0 <= i < |line| ==> s[i] == line[i];
  }

  ghost predicate FitsScanner(entries: seq<Entry>) {
    forall i :: 0 <= i < |entries| ==> Utf8Length(LineOf(entries[i])) <= MAX_LINE
  }

  lemma ParsedLine(line: string, rest: string, keys: seq<Key>)
    requires '\n' !in line
    ensures Parsed(line + "\n" + rest, keys) ==
            if Utf8Length(line) > MAX_LINE then (keys, Some(LineTooLong))
            else
              match ReadLine(DropCR(line))
              case Skipped => Parsed(rest, keys)
              case KeyLine(k) => Parsed(rest, keys + [k])
              case BadLine => ([], Some(BadBase64))
  {
    hide ReadLine, DropCR, Utf8Length;
    LineSplits(line, rest);
  }

  /** Any file of keys with labels, comments and blank lines parses to the keys in order, without
      an error exactly if every line fits the scanner's buffer. */
  lemma {:induction false} RenderedKeysParse(entries: seq<Entry>, keys: seq<Key>)
    requires forall i :: 0 <= i < |entries| ==> ValidEntry(entries[i])
    ensures FitsScanner(entries) ==> Parsed(Render(entries), keys) == (keys + KeysOf(entries), None)
    ensures !FitsScanner(entries) ==> Parsed(Render(entries), keys).1 == Some(LineTooLong)
  {
    if entries == [] {
      assert keys + [] == keys;
    } else {
      var e, rest := entries[0], entries[1..];
      var keys' := if e.KeyEntry? then keys + [e.key] else keys;
      assert keys' + KeysOf(rest) == keys + KeysOf(entries);
      LineHasNoBreak(e);
      ReadEntry(e);
      ParsedLine(LineOf(e), Render(rest), keys);
      RenderedKeysParse(rest, keys');
      hide ReadLine, DropCR, Utf8Length, Parsed, LineOf, ValidEntry, KeysOf;
      assert FitsScanner(entries) <==> Utf8Length(LineOf(e)) <= MAX_LINE && FitsScanner(rest);
    }
  }
}
