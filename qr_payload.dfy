/** The text a ticket's QR code carries, as `TicketService.toDTO` builds it, and the
    hand-written parser `CheckInService.parseQRCodeJson` reads it back with.
    The text looks like a JSON object, but the parser only strips the outer
    characters and splits on ',' and ':'; it is not a JSON parser. */
module QrPayload {
  import opened Base
  import opened Text

  const TICKET_ID_KEY: string := "ticketId"
  const TICKET_CODE_KEY: string := "ticketCode"
  const USER_ID_KEY: string := "userId"
  const EVENT_ID_KEY: string := "eventId"

  function Quoted(s: string): string { "\"" + s + "\"" }

  /** `"<key>":<value>` */
  function Field(key: string, value: string): string { Quoted(key) + ":" + value }

  /** The key/value pairs of a ticket's payload, in the order `toDTO` writes them;
      each value is already rendered (numbers in decimal, the code in quotes). */
  function TicketPairs(ticketId: nat, code: string, userId: nat, eventId: nat): seq<(string, string)>
  {
    [(TICKET_ID_KEY, Decimal(ticketId)), (TICKET_CODE_KEY, Quoted(code)),
     (USER_ID_KEY, Decimal(userId)), (EVENT_ID_KEY, Decimal(eventId))]
  }

  /** Each pair written as a field. */
  function Rendered(ps: seq<(string, string)>): (r: seq<string>)
    ensures |r| == |ps|
  {
    if ps == [] then [] else Rendered(ps[..|ps| - 1]) + [Field(ps[|ps| - 1].0, ps[|ps| - 1].1)]
  }

  /** Fields separated by ','. */
  function JoinComma(fs: seq<string>): string
    requires fs != []
  {
    if |fs| == 1 then fs[0] else fs[0] + "," + JoinComma(fs[1..])
  }

  /** An object text: the fields joined by ',' between '{' and '}'. */
  function Braced(fs: seq<string>): string
    requires fs != []
  {
    "{" + JoinComma(fs) + "}"
  }

  /** The payload `toDTO` encodes:
      {"ticketId":<id>,"ticketCode":"<code>","userId":<uid>,"eventId":<eid>} */
  function Encode(ticketId: nat, code: string, userId: nat, eventId: nat): (r: string)
    ensures |r| >= 2 && r[0] == '{' && r[|r| - 1] == '}'
  {
    Braced(Rendered(TicketPairs(ticketId, code, userId, eventId)))
  }

  /** One `key:value` entry: both sides trimmed and stripped of '"'; None where
      `kv[1]` does not exist (Java throws `ArrayIndexOutOfBoundsException`).
      Anything after a second ':' is ignored. */
  function Entry(e: string): Option<(string, string)>
  {
    var kv := Split(e, ':');
    if |kv| < 2 then None
    else Some((RemoveAll(Trim(kv[0]), '"'), RemoveAll(Trim(kv[1]), '"')))
  }

  /** `Entry` applied to each split piece. */
  function Entries(es: seq<string>): (r: seq<Option<(string, string)>>)
    ensures |r| == |es|
  {
    if es == [] then [] else Entries(es[..|es| - 1]) + [Entry(es[|es| - 1])]
  }

  /** The `HashMap` filled from the parsed entries in order (a later key
      overwrites an earlier one); None as soon as one entry has no value. */
  function Fill(kvs: seq<Option<(string, string)>>): Option<map<string, string>>
    decreases |kvs|
  {
    if kvs == [] then Some(map[])
    else
      match Fill(kvs[..|kvs| - 1])
      case None => None
      case Some(m) =>
        match kvs[|kvs| - 1]
        case None => None
        case Some(kv) => Some(m[kv.0 := kv.1])
  }

  /** `parseQRCodeJson`: trim, drop the first and the last character (Java throws
      when fewer than two remain), split on ',' and collect the entries. A character
      here is a Unicode scalar value; Java cuts UTF-16 units instead. */
  function Parse(text: string): (r: Option<map<string, string>>)
    ensures |text| < 2 ==> r.None?
  {
    var t := Trim(text);
    if |t| < 2 then None else Fill(Entries(Split(t[1..|t| - 1], ',')))
  }

  lemma {:induction false} EntriesIndex(es: seq<string>, k: nat)
    requires k < |es|
    ensures Entries(es)[k] == Entry(es[k])
  {
    if k < |es| - 1 {
      assert es[..|es| - 1][k] == es[k];
      EntriesIndex(es[..|es| - 1], k);
    }
  }

  /** Once an entry fails, the whole map fails. */
  lemma {:induction false} FillFailsOnward(kvs: seq<Option<(string, string)>>, k: nat)
    requires k <= |kvs| && Fill(kvs[..k]) == None
    ensures Fill(kvs) == None
    decreases |kvs| - k
  {
    if k < |kvs| {
      assert kvs[..k + 1][..k] == kvs[..k];
      FillFailsOnward(kvs, k + 1);
    } else {
      assert kvs[..k] == kvs;
    }
  }

  /** One more entry with a value puts it into the map. */
  lemma {:induction false} FillStep(kvs: seq<Option<(string, string)>>, k: nat, m: map<string, string>)
    requires k < |kvs| && Fill(kvs[..k]) == Some(m) && kvs[k].Some?
    ensures Fill(kvs[..k + 1]) == Some(m[kvs[k].value.0 := kvs[k].value.1])
  {
    assert kvs[..k + 1][..k] == kvs[..k];
  }

  /** An entry without a value fails the whole map. */
  lemma FillStops(kvs: seq<Option<(string, string)>>, k: nat)
    requires k < |kvs| && kvs[k].None?
    ensures Fill(kvs) == None
  {
    assert kvs[..k + 1][..k] == kvs[..k];
    FillFailsOnward(kvs, k + 1);
  }

  /** `parseQRCodeJson` as written: trim, strip the braces, split on ',' and collect. */
  method ParseQrCodeJson(text: string) returns (r: Option<map<string, string>>)
    ensures r == Parse(text)
  {
    var t := Trim(text);
    if |t| < 2 {
      return None;
    }
    r := CollectEntries(Split(t[1..|t| - 1], ','));
  }

  /** The loop of `parseQRCodeJson` over the split entries, filling a map; an entry
      without a ':' ends it with an exception. */
  method CollectEntries(entries: seq<string>) returns (r: Option<map<string, string>>)
    ensures r == Fill(Entries(entries))
  {
    ghost var kvs := Entries(entries);
    var m: map<string, string> := map[];
    for k := 0 to |entries|
      invariant Fill(kvs[..k]) == Some(m)
    {
      var kv := Entry(entries[k]);
      EntriesIndex(entries, k);
      if kv.None? {
        FillStops(kvs, k);
        return None;
      }
      FillStep(kvs, k, m);
      m := m[kv.value.0 := kv.value.1];
    }
    assert kvs[..|entries|] == kvs;
    return Some(m);
  }

  /** What `checkInByQRCode` takes from the map: `Long.valueOf(get("ticketId"))`
      and `get("ticketCode")`, which may be absent (null). */
  datatype Credentials = Credentials(ticketId: int, code: Option<string>)

  function ReadCredentials(m: map<string, string>): (r: Option<Credentials>)
    ensures r.Some? <==> TICKET_ID_KEY in m && ParseLong(m[TICKET_ID_KEY]).Some?
    ensures r.Some? ==> r.value.code.Some? == (TICKET_CODE_KEY in m)
  {
    if TICKET_ID_KEY !in m then None
    else
      match ParseLong(m[TICKET_ID_KEY])
      case None => None
      case Some(id) =>
        Some(Credentials(id, if TICKET_CODE_KEY in m then Some(m[TICKET_CODE_KEY]) else None))
  }

  /** A ticket code the parser can carry intact: none of its separators or quotes. */
  predicate SafeCode(code: string)
  {
    ',' !in code && ':' !in code && '"' !in code
  }

  lemma {:induction false} RemoveAllAppend(a: string, b: string, c: char)
    ensures RemoveAll(a + b, c) == RemoveAll(a, c) + RemoveAll(b, c)
  {
    if a != [] {
      assert (a + b)[0] == a[0] && (a + b)[1..] == a[1..] + b;
      RemoveAllAppend(a[1..], b, c);
      if a[0] != c {
        assert [a[0]] + RemoveAll(a[1..], c) + RemoveAll(b, c) == [a[0]] + (RemoveAll(a[1..], c) + RemoveAll(b, c));
      }
    } else {
      assert a + b == b;
    }
  }

  lemma {:induction false} Unquote(s: string)
    requires '"' !in s
    ensures RemoveAll(Quoted(s), '"') == s
  {
    RemoveAllAppend("\"" + s, "\"", '"');
    RemoveAllAppend("\"", s, '"');
  }

  lemma {:induction false} DecimalIsPlain(n: nat)
    ensures ',' !in Decimal(n) && ':' !in Decimal(n) && '"' !in Decimal(n)
    ensures Trim(Decimal(n)) == Decimal(n) && RemoveAll(Decimal(n), '"') == Decimal(n)
  {
    var d := Decimal(n);
    assert forall i :: 0 <= i < |d| ==> IsDigit(d[i]);
    TrimKeeps(d);
  }

  /** An entry `"<key>":<value>` reads back as (key, unquoted value). */
  lemma {:induction false} FieldEntry(key: string, value: string, plain: string)
    requires ':' !in key && '"' !in key && key != []
    requires ':' !in value && value != [] && !IsTrimmed(value[0]) && !IsTrimmed(value[|value| - 1])
    requires RemoveAll(value, '"') == plain
    ensures Entry(Field(key, value)) == Some((key, plain))
  {
    var q := Quoted(key);
    assert ':' !in q;
    SplitPair(q, ':', value);
    TrimKeeps(q);
    TrimKeeps(value);
    Unquote(key);
  }

  /** A pair the parser reads back intact: the key is non-empty and free of ':', '"'
      and ','; the value is non-empty, free of ':' and ',', and starts and ends
      with characters `trim` keeps. */
  predicate SafePair(kv: (string, string))
  {
    kv.0 != [] && ':' !in kv.0 && '"' !in kv.0 && ',' !in kv.0 &&
    kv.1 != [] && ':' !in kv.1 && ',' !in kv.1 &&
    !IsTrimmed(kv.1[0]) && !IsTrimmed(kv.1[|kv.1| - 1])
  }

  /** The map the pairs are meant to produce: values stripped of '"', a later key winning. */
  function Expected(ps: seq<(string, string)>): map<string, string>
  {
    if ps == [] then map[]
    else Expected(ps[..|ps| - 1])[ps[|ps| - 1].0 := RemoveAll(ps[|ps| - 1].1, '"')]
  }

  /** Filling the map from rendered safe pairs gives the expected map. */
  lemma {:induction false} FillRendered(ps: seq<(string, string)>)
    requires forall i :: 0 <= i < |ps| ==> SafePair(ps[i])
    ensures Fill(Entries(Rendered(ps))) == Some(Expected(ps))
  {
    if ps != [] {
      var n := |ps| - 1;
      var es := Rendered(ps);
      assert es[..n] == Rendered(ps[..n]);
      FillRendered(ps[..n]);
      var kv := ps[n];
      FieldEntry(kv.0, kv.1, RemoveAll(kv.1, '"'));
      var kvs := Entries(es);
      assert kvs[..n] == Entries(es[..n]);
      assert kvs[n] == Entry(Field(kv.0, kv.1));
    }
  }

  /** Rendered safe pairs hold no ',' and the last field is not empty. */
  lemma {:induction false} RenderedPlain(ps: seq<(string, string)>)
    requires forall i :: 0 <= i < |ps| ==> SafePair(ps[i])
    ensures forall i :: 0 <= i < |ps| ==> ',' !in Rendered(ps)[i]
  {
    if ps != [] {
      var n := |ps| - 1;
      RenderedPlain(ps[..n]);
      var es := Rendered(ps);
      assert es[..n] == Rendered(ps[..n]);
      assert ',' !in Quoted(ps[n].0);
      assert forall i :: 0 <= i < n ==> es[i] == es[..n][i];
    }
  }

  /** Fields free of ',' with a non-empty last one split back apart. */
  lemma {:induction false} SplitJoin(fs: seq<string>)
    requires fs != [] && fs[|fs| - 1] != []
    requires forall i :: 0 <= i < |fs| ==> ',' !in fs[i]
    ensures Pieces(JoinComma(fs), ',') == fs
  {
    if |fs| == 1 {
      PiecesSingle(fs[0], ',');
    } else {
      SplitJoin(fs[1..]);
      assert fs[0] + "," + JoinComma(fs[1..]) == fs[0] + [','] + JoinComma(fs[1..]);
      PiecesCons(fs[0], ',', JoinComma(fs[1..]));
      assert [fs[0]] + fs[1..] == fs;
    }
  }

  lemma {:induction false} JoinNotEmpty(fs: seq<string>)
    requires fs != [] && fs[|fs| - 1] != []
    ensures JoinComma(fs) != []
  {
    if |fs| > 1 {
      JoinNotEmpty(fs[1..]);
    }
  }

  /** Braces survive `trim`, and dropping them gives back what they enclose. */
  lemma {:induction false} BracesTrim(inner: string)
    ensures Trim("{" + inner + "}") == "{" + inner + "}"
    ensures ("{" + inner + "}")[1..|inner| + 1] == inner
  {
    var text := "{" + inner + "}";
    assert text[0] == '{' && text[|text| - 1] == '}';
    TrimKeeps(text);
  }

  lemma {:induction false} SplitJoined(fs: seq<string>)
    requires fs != [] && fs[|fs| - 1] != []
    requires forall i :: 0 <= i < |fs| ==> ',' !in fs[i]
    ensures Split(JoinComma(fs), ',') == fs
  {
    JoinNotEmpty(fs);
    SplitJoin(fs);
  }

  /** Parsing an object text hands each of its fields to `Entry`. */
  lemma {:induction false} ParseBraced(fs: seq<string>)
    requires fs != [] && fs[|fs| - 1] != []
    requires forall i :: 0 <= i < |fs| ==> ',' !in fs[i]
    ensures Parse(Braced(fs)) == Fill(Entries(fs))
  {
    BracesTrim(JoinComma(fs));
    SplitJoined(fs);
  }

  /** Any non-empty list of safe pairs, written as an object, parses to the expected map. */
  lemma {:induction false} ParsePairs(ps: seq<(string, string)>)
    requires ps != [] && forall i :: 0 <= i < |ps| ==> SafePair(ps[i])
    ensures Parse(Braced(Rendered(ps))) == Some(Expected(ps))
  {
    RenderedPlain(ps);
    ParseBraced(Rendered(ps));
    FillRendered(ps);
  }

  /** The map a ticket's payload parses to. */
  function PayloadMap(ticketId: nat, code: string, userId: nat, eventId: nat): map<string, string>
  {
    map[TICKET_ID_KEY := Decimal(ticketId)][TICKET_CODE_KEY := code]
       [USER_ID_KEY := Decimal(userId)][EVENT_ID_KEY := Decimal(eventId)]
  }

  lemma {:induction false} TicketPairsSafe(ticketId: nat, code: string, userId: nat, eventId: nat)
    requires SafeCode(code)
    ensures forall i :: 0 <= i < 4 ==> SafePair(TicketPairs(ticketId, code, userId, eventId)[i])
  {
    var ps := TicketPairs(ticketId, code, userId, eventId);
    DecimalPairSafe(TICKET_ID_KEY, ticketId);
    DecimalPairSafe(USER_ID_KEY, userId);
    DecimalPairSafe(EVENT_ID_KEY, eventId);
    var q := Quoted(code);
    assert q[0] == '"' && q[|q| - 1] == '"';
    assert forall i :: 0 <= i < |q| ==> q[i] == '"' || q[i] in code;
    assert SafePair(ps[1]);
  }

  /** A pair under one of the payload's keys whose value is a number in decimal. */
  lemma {:induction false} DecimalPairSafe(key: string, n: nat)
    requires key in {TICKET_ID_KEY, USER_ID_KEY, EVENT_ID_KEY}
    ensures SafePair((key, Decimal(n)))
  {
    DecimalIsPlain(n);
    var d := Decimal(n);
    assert IsDigit(d[0]) && IsDigit(d[|d| - 1]);
  }

  lemma {:induction false} TicketPairsExpected(ticketId: nat, code: string, userId: nat, eventId: nat)
    requires SafeCode(code)
    ensures Expected(TicketPairs(ticketId, code, userId, eventId)) == PayloadMap(ticketId, code, userId, eventId)
  {
    DecimalIsPlain(ticketId);
    DecimalIsPlain(userId);
    DecimalIsPlain(eventId);
    Unquote(code);
    var ps := TicketPairs(ticketId, code, userId, eventId);
    assert ps[..1][..0] == [];
    assert Expected(ps[..1]) == map[TICKET_ID_KEY := Decimal(ticketId)];
    assert ps[..2][..1] == ps[..1];
    assert Expected(ps[..2]) == map[TICKET_ID_KEY := Decimal(ticketId)][TICKET_CODE_KEY := code];
    assert ps[..3][..2] == ps[..2];
    assert Expected(ps[..3]) == map[TICKET_ID_KEY := Decimal(ticketId)][TICKET_CODE_KEY := code]
                                   [USER_ID_KEY := Decimal(userId)];
    assert ps[..3] == ps[..|ps| - 1];
  }

  /** Round trip: parsing the payload of a ticket recovers every field, provided
      the code holds no ',', ':' or '"' (the UUID text the tickets carry holds none). */
  lemma {:induction false} ParseEncode(ticketId: nat, code: string, userId: nat, eventId: nat)
    requires SafeCode(code)
    ensures Parse(Encode(ticketId, code, userId, eventId)) == Some(PayloadMap(ticketId, code, userId, eventId))
  {
    TicketPairsSafe(ticketId, code, userId, eventId);
    TicketPairsExpected(ticketId, code, userId, eventId);
    ParsePairs(TicketPairs(ticketId, code, userId, eventId));
  }

  lemma {:induction false} ReadPayloadMap(ticketId: nat, code: string, userId: nat, eventId: nat)
    requires ticketId <= LONG_MAX
    ensures ReadCredentials(PayloadMap(ticketId, code, userId, eventId)) == Some(Credentials(ticketId, Some(code)))
  {
    var m := PayloadMap(ticketId, code, userId, eventId);
    assert m[TICKET_ID_KEY] == Decimal(ticketId) && m[TICKET_CODE_KEY] == code;
    ParseDecimal(ticketId);
  }

  /** What the check-in path reads from a ticket's own payload: its id and its code. */
  lemma {:induction false} QrRoundTrip(ticketId: nat, code: string, userId: nat, eventId: nat)
    requires SafeCode(code) && ticketId <= LONG_MAX
    ensures Parse(Encode(ticketId, code, userId, eventId)).Some?
    ensures ReadCredentials(Parse(Encode(ticketId, code, userId, eventId)).value)
            == Some(Credentials(ticketId, Some(code)))
  {
    ParseEncode(ticketId, code, userId, eventId);
    ReadPayloadMap(ticketId, code, userId, eventId);
  }

  /** A payload that names only a ticket id parses to credentials without a code:
      `checkInByQRCode` then passes null and the code comparison is skipped. */
  lemma {:induction false} CodeMayBeOmitted(ticketId: nat)
    requires ticketId <= LONG_MAX
    ensures Parse(Braced(Rendered([(TICKET_ID_KEY, Decimal(ticketId))]))).Some?
    ensures ReadCredentials(Parse(Braced(Rendered([(TICKET_ID_KEY, Decimal(ticketId))]))).value)
            == Some(Credentials(ticketId, None))
  {
    IdOnlyPayload(ticketId);
    ParseDecimal(ticketId);
  }

  /** The payload holding only `ticketId` parses to the one-entry map. */
  lemma IdOnlyPayload(ticketId: nat)
    ensures Parse(Braced(Rendered([(TICKET_ID_KEY, Decimal(ticketId))])))
            == Some(map[TICKET_ID_KEY := Decimal(ticketId)])
  {
    var ps := [(TICKET_ID_KEY, Decimal(ticketId))];
    DecimalIsPlain(ticketId);
    assert SafePair(ps[0]);
    ParsePairs(ps);
    assert ps[..0] == [];
    assert Expected(ps) == map[TICKET_ID_KEY := Decimal(ticketId)];
  }
}
