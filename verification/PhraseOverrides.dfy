/** The store of phrase overrides and its file (engine/src/phrase_override/phrase_override_store.cpp). */
module PhraseOverrides {
  import opened Wrappers
  import opened Sequences
  import opened Utf
  import opened PhraseStore
  import opened PhraseFile

  type Phrases = map<Bytes, Text>

  const NEWLINE: Byte := 0x0A

  // ----- what a store holds -----

  ghost predicate Stored(key: Bytes, phrase: Text) {
    exists readings :: ReadingKey(readings) == Some(key) && ValidEntry(phrase, |readings|)
  }

  /** Every phrase is a valid entry for readings with its key. */
  ghost predicate WellFormed(phrases: Phrases) {
    forall key :: key in phrases ==> Stored(key, phrases[key])
  }

  function Lookup(phrases: Phrases, readings: seq<Text>): Option<Text> {
    match ReadingKey(readings)
    case None => None
    case Some(key) => if key in phrases then Some(phrases[key]) else None
  }

  lemma {:induction false} SameTrimmedSameParts(a: seq<Text>, b: seq<Text>)
    requires |a| == |b| && forall i :: 0 <= i < |a| ==> Trimmed(a[i]) == Trimmed(b[i])
    ensures KeyParts(a) == KeyParts(b)
  {
    hide Trimmed, Utf16ToUtf8;
    if a != [] {
      SameTrimmedSameParts(a[1..], b[1..]);
    }
  }

  predicate SameReadings(a: seq<Text>, b: seq<Text>) {
    |a| == |b| && forall i :: 0 <= i < |a| ==> Trimmed(a[i]) == Trimmed(b[i])
  }

  /** Storing a phrase changes the answer for exactly the readings it was stored for, up to trimmed spaces. */
  lemma LookupAfterStore(phrases: Phrases, phrase: Text, readings: seq<Text>, asked: seq<Text>)
    requires ReadingKey(readings).Some? && ReadingKey(asked).Some?
    ensures Lookup(phrases[ReadingKey(readings).value := phrase], asked) ==
      if SameReadings(asked, readings) then Some(phrase) else Lookup(phrases, asked)
  {
    hide Trimmed, KeyParts;
    if ReadingKey(readings) == ReadingKey(asked) {
      KeyIsInjective(asked, readings);
    }
    if SameReadings(asked, readings) {
      SameTrimmedSameParts(asked, readings);
    }
  }

  // ----- the file -----

  /** The end of the line that starts at `index`. */
  function LineEnd(text: Bytes, index: nat): (end: nat)
    requires index <= |text|
    ensures index <= end <= |text| && (end < |text| ==> text[end] == NEWLINE)
    ensures forall k :: index <= k < end ==> text[k] != NEWLINE
    decreases |text| - index
  {
    if index < |text| && text[index] != NEWLINE then LineEnd(text, index + 1) else index
  }

  /** The lines from `index` on, as repeated reading of one line returns them. */
  function Lines(text: Bytes, index: nat): seq<Bytes>
    requires index <= |text|
    decreases |text| - index
  {
    if index == |text| then []
    else
      var end := LineEnd(text, index);
      [text[index..end]] + if end == |text| then [] else Lines(text, end + 1)
  }

  predicate OneLine(line: Bytes) {
    NEWLINE !in line
  }

  function FileText(lines: seq<Bytes>): Bytes {
    if lines == [] then [] else lines[0] + [NEWLINE] + FileText(lines[1..])
  }

  lemma LineIsCut(text: Bytes, index: nat, line: Bytes, rest: Bytes)
    requires index <= |text| && text[index..] == line + ([NEWLINE] + rest) && OneLine(line)
    ensures var end := index + |line|;
      end < |text| && LineEnd(text, index) == end && text[index..end] == line && text[end + 1..] == rest
  {
    var end := index + |line|;
    var tail := text[index..];
    assert |tail| == |line| + 1 + |rest|;
    assert text[end] == tail[|line|] == NEWLINE;
    forall k | index <= k < end ensures text[k] == line[k - index] && text[k] != NEWLINE {
      assert text[k] == tail[k - index];
      assert line[k - index] in line;
    }
    assert text[index..end] == line;
    DropDrop(text, index, |line| + 1);
    Associative(line, [NEWLINE], rest);
    Parts(line + [NEWLINE], rest);
  }

  lemma {:induction false} FirstLine(lines: seq<Bytes>)
    requires lines != []
    ensures FileText(lines) == lines[0] + [NEWLINE] + FileText(lines[1..])
  {
  }

  lemma LinesStep(text: Bytes, index: nat)
    requires index < |text|
    ensures var end := LineEnd(text, index);
      Lines(text, index) == [text[index..end]] + if end == |text| then [] else Lines(text, end + 1)
  {
  }

  lemma {:induction false} NoLines(text: Bytes, index: nat)
    requires index <= |text| && |text[index..]| == 0
    ensures Lines(text, index) == []
  {
  }

  lemma EmptyFile()
    ensures FileText([]) == []
  {
  }

  lemma NextLine(text: Bytes, index: nat, lines: seq<Bytes>)
    requires lines != [] && index <= |text| && text[index..] == FileText(lines) && OneLine(lines[0])
    ensures var end := index + |lines[0]|;
      && end < |text| && text[end + 1..] == FileText(lines[1..])
      && Lines(text, index) == [lines[0]] + Lines(text, end + 1)
  {
    hide *;
    var line, rest := lines[0], FileText(lines[1..]);
    FirstLine(lines);
    Associative(line, [NEWLINE], rest);
    LineIsCut(text, index, line, rest);
    LinesStep(text, index);
  }

  /** Reading lines undoes writing them when no line holds a newline. */
  lemma {:induction false} LinesOfText(text: Bytes, index: nat, lines: seq<Bytes>)
    requires index <= |text| && text[index..] == FileText(lines)
    requires forall i :: 0 <= i < |lines| ==> OneLine(lines[i])
    ensures Lines(text, index) == lines
    decreases |lines|
  {
    hide *;
    if lines == [] {
      EmptyFile();
      NoLines(text, index);
    } else {
      NextLine(text, index, lines);
      LinesOfText(text, index + |lines[0]| + 1, lines[1..]);
      PushOne(lines, 0);
      Whole(lines);
    }
  }

  // ----- loading -----

  function LoadOne(phrases: Phrases, line: Bytes): Phrases {
    match LoadLine(line)
    case None => phrases
    case Some(entry) => phrases[entry.0 := entry.1]
  }

  function LoadAll(phrases: Phrases, lines: seq<Bytes>): Phrases
    decreases |lines|
  {
    if lines == [] then phrases else LoadAll(LoadOne(phrases, lines[0]), lines[1..])
  }

  lemma LoadOneKeeps(phrases: Phrases, line: Bytes)
    requires WellFormed(phrases)
    ensures WellFormed(LoadOne(phrases, line))
  {
    hide KeyParts, ParseLine, ValidEntry, ReadingKey;
    if LoadLine(line).Some? {
      var record := ParseLine(line).value;
      assert Stored(LoadLine(line).value.0, LoadLine(line).value.1);
    }
  }

  ghost predicate AllPlain(phrases: Phrases) {
    forall key :: key in phrases ==> Plain(key, phrases[key])
  }

  lemma {:induction false} LoadedArePlain(phrases: Phrases, lines: seq<Bytes>)
    requires AllPlain(phrases)
    ensures AllPlain(LoadAll(phrases, lines))
    decreases |lines|
  {
    hide Plain, LoadLine;
    if lines != [] {
      if LoadLine(lines[0]).Some? {
        LoadedIsPlain(lines[0]);
      }
      LoadedArePlain(LoadOne(phrases, lines[0]), lines[1..]);
    }
  }

  // ----- printing -----

  ghost function PrintedLine(phrases: Phrases, key: Bytes): Bytes
    requires key in phrases && WellFormed(phrases)
  {
    StoredPrints(key, phrases[key]);
    FormatLine(phrases[key], key).value
  }

  lemma StoredPrints(key: Bytes, phrase: Text)
    requires Stored(key, phrase)
    ensures FormatLine(phrase, key).Some? && OneLine(FormatLine(phrase, key).value) && phrase != []
    ensures LoadLine(FormatLine(phrase, key).value) == Some((key, phrase)) <==> Plain(key, phrase)
  {
    hide ReadingKey, LoadLine, SpaceInKey, Clean, DecodeUtf16;
    var readings :| ReadingKey(readings) == Some(key) && ValidEntry(phrase, |readings|);
    LoadUndoesPrint(phrase, readings, key);
    ValidIsNotEmpty(phrase, |readings|);
    KeyHasNoNewline(readings);
    var utf8 := Utf16ToUtf8(phrase).value;
    assert NEWLINE !in utf8;
    assert NEWLINE !in utf8 + [0x20] + key;
  }

  lemma KeyHasNoNewline(readings: seq<Text>)
    requires ReadingKey(readings).Some?
    ensures NEWLINE !in ReadingKey(readings).value
  {
    hide KeyParts, Joined;
    JoinedHasNoNewline(readings);
  }

  lemma {:induction false} JoinedHasNoNewline(readings: seq<Text>)
    requires KeyParts(readings).Some?
    ensures NEWLINE !in Joined(KeyParts(readings).value)
  {
    hide KeyPart;
    if readings != [] {
      PartFacts(readings[0]);
      JoinedHasNoNewline(readings[1..]);
      JoinedFirst(KeyParts(readings).value);
      var part, rest := KeyParts(readings).value[0], Rest(KeyParts(readings).value);
      assert NEWLINE !in part && NEWLINE !in rest;
      assert NEWLINE !in part + rest;
    }
  }

  /** `order` names every key once; the source prints the entries in the order of their keys. */
  ghost predicate Listing(order: seq<Bytes>, phrases: Phrases) {
    (forall i, j :: 0 <= i < j < |order| ==> order[i] != order[j]) && forall key :: key in order <==> key in phrases
  }

  ghost function Printed(order: seq<Bytes>, phrases: Phrases): (lines: seq<Bytes>)
    requires WellFormed(phrases) && forall key :: key in order ==> key in phrases
    ensures |lines| == |order| && forall i :: 0 <= i < |order| ==> lines[i] == PrintedLine(phrases, order[i])
  {
    if order == [] then [] else [PrintedLine(phrases, order[0])] + Printed(order[1..], phrases)
  }

  lemma {:induction false} PlainLinesLoad(phrases: Phrases, order: seq<Bytes>, loaded: Phrases)
    requires WellFormed(phrases) && AllPlain(phrases) && forall key :: key in order ==> key in phrases
    ensures var r := LoadAll(loaded, Printed(order, phrases));
      forall key :: (key in r <==> key in order || key in loaded) &&
        (key in r ==> r[key] == if key in order then phrases[key] else loaded[key])
  {
    hide Plain, LoadLine, FormatLine;
    if order != [] {
      StoredPrints(order[0], phrases[order[0]]);
      PlainLinesLoad(phrases, order[1..], loaded[order[0] := phrases[order[0]]]);
    }
  }

  lemma {:induction false} FileHoldsLines(phrases: Phrases, order: seq<Bytes>)
    requires WellFormed(phrases) && forall key :: key in order ==> key in phrases
    ensures Lines(FileText(Printed(order, phrases)), 0) == Printed(order, phrases)
  {
    hide Plain, LoadLine, FormatLine, FileText, Lines;
    var lines := Printed(order, phrases);
    forall i | 0 <= i < |lines| ensures OneLine(lines[i]) {
      StoredPrints(order[i], phrases[order[i]]);
    }
    Whole(FileText(lines));
    LinesOfText(FileText(lines), 0, lines);
  }

  /** Saving and loading restore the store exactly when no phrase starts with the comment sign and no reading
      holds an ideographic space. */
  lemma {:induction false} FileRoundTrip(phrases: Phrases, order: seq<Bytes>)
    requires WellFormed(phrases) && Listing(order, phrases)
    ensures LoadAll(map[], Lines(FileText(Printed(order, phrases)), 0)) == phrases <==> AllPlain(phrases)
  {
    hide Plain, LoadAll, FileText, Lines, Printed, WellFormed;
    FileHoldsLines(phrases, order);
    LoadedArePlain(map[], Printed(order, phrases));
    if AllPlain(phrases) {
      PlainLinesLoad(phrases, order, map[]);
      assert LoadAll(map[], Printed(order, phrases)) == phrases;
    }
  }

  // ----- the store -----

  datatype File = Missing | Unknown | Readable(text: Bytes) | Broken

  /** The map that `replace` builds; None when a record is not valid. */
  function Gathered(phrases: Phrases, records: seq<Record>): Option<Phrases>
    decreases |records|
  {
    if records == [] then Some(phrases)
    else if ReadingKey(records[0].readings).None? || !ValidEntry(records[0].phrase, |records[0].readings|) then None
    else Gathered(phrases[ReadingKey(records[0].readings).value := records[0].phrase], records[1..])
  }

  class PhraseOverrideStore {
    var phrases: Phrases

    ghost predicate Valid()
      reads this
    {
      WellFormed(phrases)
    }

    constructor ()
      ensures Valid() && phrases == map[]
    {
      phrases := map[];
    }

    method Load(file: File) returns (ok: bool)
      requires Valid()
      modifies this
      ensures Valid() && ok == (file.Missing? || file.Readable?)
      ensures phrases == match file
        case Missing => map[]
        case Readable(text) => LoadAll(map[], Lines(text, 0))
        case _ => old(phrases)
    {
      hide LoadOne, LoadAll, Lines, WellFormed;
      LoadedNothing();
      if !file.Readable? {
        if file.Missing? {
          phrases := map[];
        }
        return file.Missing?;
      }
      var text := file.text;
      var loaded: Phrases := map[];
      var index := 0;
      while index < |text|
        invariant 0 <= index <= |text| && WellFormed(loaded) && phrases == old(phrases)
        invariant LoadAll(map[], Lines(text, 0)) == LoadAll(loaded, Lines(text, index))
        decreases |text| - index
      {
        var end := FindLineEnd(text, index);
        var line := text[index..end];
        LineStep(loaded, text, index);
        LoadOneKeeps(loaded, line);
        loaded := LoadInto(loaded, line);
        index := if end == |text| then end else end + 1;
      }
      AllLoaded(loaded, text);
      phrases := loaded;
      return true;
    }

    /** Stores an entry; when it cannot be saved the store is as before. */
    method Add(phrase: Text, readings: seq<Text>, saved: bool) returns (ok: bool)
      requires Valid()
      modifies this
      ensures Valid()
      ensures ok == (ReadingKey(readings).Some? && ValidEntry(phrase, |readings|) && saved)
      ensures phrases == if ok then old(phrases)[ReadingKey(readings).value := phrase] else old(phrases)
    {
      hide ReadingKey, ValidEntry;
      var key := BuildReadingKey(readings);
      if key.None? || !ValidEntry(phrase, |readings|) {
        return false;
      }
      var previous := if key.value in phrases then Some(phrases[key.value]) else None;
      phrases := phrases[key.value := phrase];
      assert Stored(key.value, phrase);
      if saved {
        return true;
      }
      if previous.Some? {
        phrases := phrases[key.value := previous.value];
      } else {
        phrases := phrases - {key.value};
      }
      assert phrases == old(phrases);
      return false;
    }

    /** Replaces all entries at once, or none. */
    method Replace(records: seq<Record>, saved: bool) returns (ok: bool)
      requires Valid()
      modifies this
      ensures Valid()
      ensures ok == (Gathered(map[], records).Some? && saved)
      ensures phrases == if ok then Gathered(map[], records).value else old(phrases)
    {
      hide ReadingKey, ValidEntry;
      var replacement: Phrases := map[];
      var i := 0;
      Whole(records);
      while i < |records|
        invariant 0 <= i <= |records| && WellFormed(replacement) && phrases == old(phrases)
        invariant Gathered(map[], records) == Gathered(replacement, records[i..])
      {
        PushOne(records, i);
        var key := BuildReadingKey(records[i].readings);
        if key.None? || !ValidEntry(records[i].phrase, |records[i].readings|) {
          return false;
        }
        replacement := replacement[key.value := records[i].phrase];
        assert Stored(key.value, records[i].phrase);
        i := i + 1;
      }
      Whole(records);
      var previous := phrases;
      phrases := replacement;
      if saved {
        return true;
      }
      phrases := previous;
      return false;
    }

    method Find(readings: seq<Text>) returns (phrase: Option<Text>)
      ensures phrase == Lookup(phrases, readings)
    {
      hide ReadingKey;
      var key := BuildReadingKey(readings);
      if key.None? {
        return None;
      }
      return if key.value in phrases then Some(phrases[key.value]) else None;
    }
  }

  method FindLineEnd(text: Bytes, index: nat) returns (end: nat)
    requires index <= |text|
    ensures end == LineEnd(text, index)
  {
    end := index;
    while end < |text| && text[end] != NEWLINE
      invariant index <= end <= |text| && LineEnd(text, index) == LineEnd(text, end)
    {
      end := end + 1;
    }
  }

  lemma {:induction false} AllLoaded(loaded: Phrases, text: Bytes)
    ensures LoadAll(loaded, Lines(text, |text|)) == loaded
  {
  }

  lemma LoadedNothing()
    ensures WellFormed(map[])
  {
  }

  lemma LineStep(loaded: Phrases, text: Bytes, index: nat)
    requires index < |text|
    ensures var end := LineEnd(text, index);
      LoadAll(loaded, Lines(text, index)) ==
      LoadAll(LoadOne(loaded, text[index..end]), Lines(text, if end == |text| then end else end + 1))
  {
    hide *;
    var end := LineEnd(text, index);
    LinesStep(text, index);
    NoLines(text, |text|);
    LoadFirst(loaded, text[index..end], if end == |text| then [] else Lines(text, end + 1));
  }

  lemma {:induction false} LoadFirst(loaded: Phrases, line: Bytes, rest: seq<Bytes>)
    ensures LoadAll(loaded, [line] + rest) == LoadAll(LoadOne(loaded, line), rest)
  {
    hide LoadOne;
    Parts([line], rest);
  }

  /** One turn of the loading loop. */
  method LoadInto(loaded: Phrases, line: Bytes) returns (r: Phrases)
    ensures r == LoadOne(loaded, line)
  {
    hide ParseLine, ValidEntry, ReadingKey;
    if line == [] || line[0] == COMMENT {
      return loaded;
    }
    var record := Parse(line);
    if record.None? || !ValidEntry(record.value.phrase, |record.value.readings|) {
      return loaded;
    }
    var key := BuildReadingKey(record.value.readings);
    if key.None? {
      return loaded;
    }
    return loaded[key.value := record.value.phrase];
  }
}
