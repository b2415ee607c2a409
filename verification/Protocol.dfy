/** The binary protocol: what each message is as bytes, and how a frame is read back. The client
    (engine/src/protocol/protocol.cpp) and the service (ime-unix-service/src/pipe/protocol.cpp) implement it
    separately; they write the same bytes and differ in how they check the count of a recorded commit. */
module Protocol {
  import opened Sequences
  import opened Utf
  import opened Messages
  import opened Wire

  datatype Side = Client | Service

  // ----- repeated fields -----

  function PutMany<T>(items: seq<T>, put: T -> Bytes): Bytes {
    if items == [] then [] else put(items[0]) + PutMany(items[1..], put)
  }

  function GetMany<T>(s: Bytes, count: nat, get: Bytes -> Parsed<T>): (r: Parsed<seq<T>>)
    ensures r.Got? ==> |r.value| == count
    decreases count
  {
    if count == 0 then Got([], s)
    else
      match get(s)
      case Failed => Failed
      case Got(first, s1) =>
        match GetMany(s1, count - 1, get)
        case Failed => Failed
        case Got(others, s2) => Got([first] + others, s2)
  }

  /** Reading `item` back gives `image` and leaves the rest. */
  ghost predicate Inverse<T>(put: T -> Bytes, get: Bytes -> Parsed<T>, item: T, image: T) {
    forall rest: Bytes :: get(put(item) + rest) == Got(image, rest)
  }

  lemma {:induction false} ManyRoundTrip<T>(items: seq<T>, images: seq<T>, put: T -> Bytes, get: Bytes -> Parsed<T>, rest: Bytes)
    requires |items| == |images| && forall i :: 0 <= i < |items| ==> Inverse(put, get, items[i], images[i])
    ensures GetMany(PutMany(items, put) + rest, |items|, get) == Got(images, rest)
  {
    if items == [] {
      NothingAdded(rest);
    } else {
      var head, tail := put(items[0]), PutMany(items[1..], put);
      Associative(head, tail, rest);
      assert Inverse(put, get, items[0], images[0]);
      assert get(head + (tail + rest)) == Got(images[0], tail + rest);
      ManyRoundTrip(items[1..], images[1..], put, get, rest);
      PushOne(images, 0);
      Whole(images);
    }
  }

  lemma {:induction false} ManyLength<T>(items: seq<T>, put: T -> Bytes, minimum: nat)
    requires forall i :: 0 <= i < |items| ==> |put(items[i])| >= minimum
    ensures |PutMany(items, put)| >= minimum * |items|
  {
    if items != [] {
      ManyLength(items[1..], put, minimum);
    }
  }

  /** Everything read takes at least `minimum` bytes. */
  ghost predicate Consumes<T>(get: Bytes -> Parsed<T>, minimum: nat) {
    forall s: Bytes :: get(s).Got? ==> |get(s).rest| + minimum <= |s|
  }

  lemma {:induction false} ManyConsumes<T>(s: Bytes, count: nat, get: Bytes -> Parsed<T>, minimum: nat)
    requires Consumes(get, minimum)
    ensures GetMany(s, count, get).Got? ==> |GetMany(s, count, get).rest| + minimum * count <= |s|
    decreases count
  {
    if count > 0 && get(s).Got? {
      ManyConsumes(get(s).rest, count - 1, get, minimum);
    }
  }

  /** A count, which must be plausible for what is left, and that many items. */
  function GetCounted<T>(s: Bytes, minimum: nat, get: Bytes -> Parsed<T>): Parsed<seq<T>>
    requires minimum > 0
  {
    match GetNumber(s, 4)
    case Failed => Failed
    case Got(count, rest) =>
      if count > MAX_REPEATED || count > |rest| / minimum then Failed else GetMany(rest, count, get)
  }

  function PutCounted<T>(items: seq<T>, put: T -> Bytes): Bytes {
    PutNumber(|items|, 4) + PutMany(items, put)
  }

  lemma CountedRoundTrip<T>(items: seq<T>, images: seq<T>, put: T -> Bytes, get: Bytes -> Parsed<T>, minimum: nat, rest: Bytes)
    requires (minimum == 1 || minimum == 4) && |items| == |images| <= MAX_REPEATED
    requires forall i :: 0 <= i < |items| ==> Inverse(put, get, items[i], images[i]) && |put(items[i])| >= minimum
    ensures GetCounted(PutCounted(items, put) + rest, minimum, get) == Got(images, rest)
  {
    hide Inverse, PutMany, GetMany;
    Powers();
    var body := PutMany(items, put);
    Associative(PutNumber(|items|, 4), body, rest);
    GetNumberRoundTrip(|items|, 4, body + rest);
    ManyLength(items, put, minimum);
    Fits(|items|, minimum, |body + rest|);
    ManyRoundTrip(items, images, put, get, rest);
  }

  lemma Fits(count: nat, minimum: nat, length: nat)
    requires (minimum == 1 || minimum == 4) && minimum * count <= length
    ensures count <= length / minimum
  {
    assert minimum == 4 ==> 4 * count <= length;
  }

  // ----- padding -----

  function PutPadding(e: PaddingEntry): Bytes {
    if e.chosen then [1] + PutNumber(e.chosenChar, 4) else [0] + PutText(e.bopomofo)
  }

  predicate PaddingEncodable(e: PaddingEntry) {
    if e.chosen then e.chosenChar != 0 && IsScalar(e.chosenChar) else |e.bopomofo| <= MAX_BOPOMOFO && ValidUtf16(e.bopomofo)
  }

  /** Only one half of an entry is sent. */
  function Sent(e: PaddingEntry): PaddingEntry {
    if e.chosen then e.(bopomofo := []) else e.(chosenChar := 0)
  }

  function GetPadding(s: Bytes): Parsed<PaddingEntry> {
    if s == [] then Failed
    else if s[0] == 0 then
      match GetText(s[1..], MAX_BOPOMOFO)
      case Failed => Failed
      case Got(text, rest) => Got(PaddingEntry(false, text, 0), rest)
    else if s[0] == 1 then
      match GetScalar(s[1..])
      case Failed => Failed
      case Got(c, rest) => if c == 0 then Failed else Got(PaddingEntry(true, [], c), rest)
    else Failed
  }

  lemma PaddingRoundTrip(e: PaddingEntry)
    requires PaddingEncodable(e)
    ensures Inverse(PutPadding, GetPadding, e, Sent(e)) && |PutPadding(e)| >= 1
  {
    hide GetText, GetScalar, PutText;
    forall rest: Bytes ensures GetPadding(PutPadding(e) + rest) == Got(Sent(e), rest) {
      if e.chosen {
        Associative([1], PutNumber(e.chosenChar, 4), rest);
        Parts([1], PutNumber(e.chosenChar, 4) + rest);
        ScalarRoundTrip(e.chosenChar, rest);
      } else {
        Associative([0], PutText(e.bopomofo), rest);
        Parts([0], PutText(e.bopomofo) + rest);
        TextRoundTrip(e.bopomofo, MAX_BOPOMOFO, rest);
      }
    }
  }

  // ----- candidates -----

  function PutScalar(c: nat): Bytes {
    PutNumber(c, 4)
  }

  function PutList(list: seq<nat>): Bytes {
    PutCounted(list, PutScalar)
  }

  predicate ListEncodable(list: seq<nat>) {
    |list| <= MAX_REPEATED && forall i :: 0 <= i < |list| ==> list[i] != 0 && IsScalar(list[i])
  }

  function GetList(s: Bytes): Parsed<seq<nat>> {
    GetCounted(s, 4, GetScalar)
  }

  lemma ListRoundTrip(list: seq<nat>)
    requires ListEncodable(list)
    ensures Inverse(PutList, GetList, list, list) && |PutList(list)| >= 4
  {
    hide GetCounted, GetScalar;
    forall i | 0 <= i < |list| ensures Inverse(PutScalar, GetScalar, list[i], list[i]) && |PutScalar(list[i])| >= 4 {
      forall rest: Bytes ensures GetScalar(PutScalar(list[i]) + rest) == Got(list[i], rest) {
        ScalarRoundTrip(list[i], rest);
      }
    }
    forall rest: Bytes ensures GetList(PutList(list) + rest) == Got(list, rest) {
      CountedRoundTrip(list, list, PutScalar, GetScalar, 4, rest);
    }
  }

  // ----- commits -----

  function PutEntry(e: CommitEntry): Bytes {
    PutText(e.reading) + (PutNumber(e.character, 4) + (PutBool(e.manuallySelected) + PutBool(e.literal)))
  }

  predicate EntryEncodable(e: CommitEntry) {
    e.literal == (e.reading == []) && |e.reading| <= 64 && ValidUtf16(e.reading) && e.character != 0 && IsScalar(e.character)
  }

  /** A flag that must be 0 or 1. */
  function GetFlag(s: Bytes): Parsed<bool> {
    if s == [] || s[0] > 1 then Failed else Got(s[0] == 1, s[1..])
  }

  function GetEntry(s: Bytes): Parsed<CommitEntry> {
    match GetText(s, 64)
    case Failed => Failed
    case Got(reading, s1) =>
      match GetScalar(s1)
      case Failed => Failed
      case Got(character, s2) =>
        match GetFlag(s2)
        case Failed => Failed
        case Got(manual, s3) =>
          match GetFlag(s3)
          case Failed => Failed
          case Got(literal, s4) =>
            if character == 0 || literal != (reading == []) then Failed
            else Got(CommitEntry(reading, character, manual, literal), s4)
  }

  lemma FlagRoundTrip(b: bool, rest: Bytes)
    ensures GetFlag(PutBool(b) + rest) == Got(b, rest)
  {
    Parts(PutBool(b), rest);
  }

  lemma EntryRoundTrip(e: CommitEntry)
    requires EntryEncodable(e)
    ensures Inverse(PutEntry, GetEntry, e, e) && |PutEntry(e)| >= 10
  {
    hide GetText, GetScalar, PutText, PutBool, GetFlag, DecodeUtf16;
    TextTakesFour(e.reading);
    forall rest: Bytes ensures GetEntry(PutEntry(e) + rest) == Got(e, rest) {
      var reading, character, manual, literal := PutText(e.reading), PutNumber(e.character, 4), PutBool(e.manuallySelected), PutBool(e.literal);
      Associative(reading, character + (manual + literal), rest);
      Associative(character, manual + literal, rest);
      Associative(manual, literal, rest);
      TextRoundTrip(e.reading, 64, character + (manual + (literal + rest)));
      ScalarRoundTrip(e.character, manual + (literal + rest));
      FlagRoundTrip(e.manuallySelected, literal + rest);
      FlagRoundTrip(e.literal, rest);
    }
  }

  lemma TextTakesFour(text: Text)
    ensures |PutText(text)| == 4 + 2 * |text| && |PutBool(true)| == |PutBool(false)| == 1
  {
  }

  /** An entry takes at least the ten bytes that the client counts on. */
  lemma EntryConsumesTen()
    ensures Consumes(GetEntry, 10)
  {
    forall s: Bytes | GetEntry(s).Got? ensures |GetEntry(s).rest| + 10 <= |s| {
      hide DecodeUtf16;
    }
  }
}
