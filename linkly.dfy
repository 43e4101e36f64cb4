/** The register's side of the Linkly EFTPOS exchange: the sale payload, its
    framing as one line of compact JSON, the reading of the terminal's reply from
    the socket, and the classification of that reply. */
module Linkly {
  import opened Outcomes
  import opened Products
  import opened Sales
  import Json
  import Strip

  newtype byte = b: int | 0 <= b < 256

  /** The line terminator of both directions of the exchange. */
  const Newline: byte := 10

  const NoResponse := "No response from Linkly."
  const UnrecognizedPrefix := "Unrecognized Linkly response: "
  const DefaultDecline := "Card payment declined."
  const ConnectionFailedPrefix := "Linkly connection failed: "

  // ---------------------------------------------------------------------------
  // Bytes and text

  /** `s.encode("utf-8")` of a printable ASCII text: one byte per character. */
  function AsciiBytes(s: string): (r: seq<byte>)
    requires Json.Printable(s)
    ensures |r| == |s|
    ensures forall i :: 0 <= i < |s| ==> r[i] as int == s[i] as int && 32 <= r[i] <= 126
  {
    seq(|s|, i requires 0 <= i < |s| => s[i] as int as byte)
  }

  /** `b.decode("utf-8", errors="replace")` for ASCII bytes; any other byte
      becomes U+FFFD. */
  function Decode(b: seq<byte>): (r: string)
    ensures |r| == |b|
    ensures forall i :: 0 <= i < |b| && b[i] < 128 ==> r[i] as int == b[i] as int
    ensures forall i :: 0 <= i < |b| && b[i] >= 128 ==> r[i] == '\U{FFFD}'
  {
    seq(|b|, i requires 0 <= i < |b| => if b[i] < 128 then b[i] as int as char else '\U{FFFD}')
  }

  /** Decoding undoes the ASCII encoding. */
  lemma DecodeAscii(s: string)
    requires Json.Printable(s)
    ensures Decode(AsciiBytes(s)) == s
  {
  }

  /** The ASCII whitespace `bytes.strip()` removes. */
  predicate IsByteSpace(b: byte) {
    b == 32 || 9 <= b <= 13
  }

  function StripBytes(s: seq<byte>): seq<byte> {
    Strip.Strip(s, IsByteSpace)
  }

  // ---------------------------------------------------------------------------
  // Framing: `_encode_linkly_payload`

  /** The request: the compact JSON text of the payload, UTF-8 encoded, then one
      line feed.  The text is printable ASCII, so the line feed appended is the
      only one in the message. */
  function Encode(payload: Json.JsonValue, floatRepr: real -> string): (r: seq<byte>)
    requires Json.ReprOk(floatRepr)
    ensures |r| >= 2 && r[|r| - 1] == Newline
    ensures forall i :: 0 <= i < |r| - 1 ==> r[i] != Newline
    ensures Decode(r[..|r| - 1]) == Json.Serialize(payload, floatRepr)
  {
    Json.SerializePrintable(payload, floatRepr);
    var body := Json.Serialize(payload, floatRepr);
    DecodeAscii(body);
    assert (AsciiBytes(body) + [Newline])[..|body|] == AsciiBytes(body);
    AsciiBytes(body) + [Newline]
  }

  // ---------------------------------------------------------------------------
  // Reading the reply: `_read_linkly_response`

  /** What one `recv` on the socket yields: some bytes (none once the peer has
      closed), a read timeout, or another socket error. */
  datatype RecvEvent = Data(chunk: seq<byte>) | Timeout | Failed(cause: string)

  /** The reply read from the socket and how many `recv` calls it took, or the
      error that ended the read. */
  datatype ReadOutcome = Response(data: seq<byte>, recvs: nat) | ReadFailed(cause: string, recvs: nat)

  /** After this event the reader asks for more. */
  predicate Continues(e: RecvEvent) {
    e.Data? && e.chunk != [] && Newline !in e.chunk
  }

  function ChunkOf(e: RecvEvent): seq<byte> {
    if e.Data? then e.chunk else []
  }

  /** All bytes the events deliver, in order. */
  function Received(events: seq<RecvEvent>): seq<byte>
    decreases |events|
  {
    if events == [] then [] else Received(events[..|events| - 1]) + ChunkOf(events[|events| - 1])
  }

  /** The position of the first event after which the reader stops. */
  function StopIndex(events: seq<RecvEvent>): (k: nat)
    ensures k <= |events|
    ensures forall j :: 0 <= j < k ==> Continues(events[j])
    ensures k < |events| ==> !Continues(events[k])
    decreases |events|
  {
    if events == [] || !Continues(events[0]) then 0
    else
      var k := 1 + StopIndex(events[1..]);
      assert forall j :: 1 <= j < k ==> events[j] == events[1..][j - 1];
      k
  }

  /** The reader's result for a socket that yields `events` and then blocks
      until its timeout: the stripped bytes of every event up to and including
      the one that stops it (a chunk with a line feed, an empty chunk, a timeout),
      or the error of a failing `recv`. */
  function ExpectedRead(events: seq<RecvEvent>): ReadOutcome {
    var k := StopIndex(events);
    if k < |events| && events[k].Failed? then ReadFailed(events[k].cause, k + 1)
    else Response(StripBytes(Received(events[..if k < |events| then k + 1 else k])), k + 1)
  }

  /** `_read_linkly_response`: `recv` until a chunk holding a line feed, a
      close, or a timeout; join the chunks and strip the ASCII whitespace. */
  method ReadResponse(events: seq<RecvEvent>) returns (r: ReadOutcome)
    ensures r == ExpectedRead(events)
  {
    var chunks: seq<byte> := [];
    var recvs := 0;
    while true
      invariant recvs <= |events|
      invariant forall j :: 0 <= j < recvs ==> Continues(events[j])
      invariant chunks == Received(events[..recvs])
      decreases |events| - recvs
    {
      if recvs == |events| {
        // past the given events the socket blocks until its timeout
        StopAt(events, recvs);
        ReadRunsOut(events);
        return Response(StripBytes(chunks), recvs + 1);
      }
      var e := events[recvs];
      ghost var k := recvs;
      recvs := recvs + 1;
      StopOrContinue(events, k);
      if e.Timeout? {
        NoBytesAt(events, k);
        ReadEndsQuietly(events, k);
        return Response(StripBytes(chunks), recvs);
      }
      if e.Failed? {
        ReadEndsFailing(events, k);
        return ReadFailed(e.cause, recvs);
      }
      if e.chunk == [] {
        NoBytesAt(events, k);
        ReadEndsQuietly(events, k);
        return Response(StripBytes(chunks), recvs);
      }
      ReceivedStep(events, k);
      chunks := chunks + e.chunk;
      if Newline in e.chunk {
        ReadEndsQuietly(events, k);
        return Response(StripBytes(chunks), recvs);
      }
    }
  }

  /** The reader stops at `k` when every earlier event continues and this one
      does not. */
  lemma StopAt(events: seq<RecvEvent>, k: nat)
    requires k <= |events|
    requires forall j :: 0 <= j < k ==> Continues(events[j])
    requires k < |events| ==> !Continues(events[k])
    ensures StopIndex(events) == k
  {
  }

  lemma StopOrContinue(events: seq<RecvEvent>, k: nat)
    requires k < |events|
    requires forall j :: 0 <= j < k ==> Continues(events[j])
    ensures !Continues(events[k]) ==> StopIndex(events) == k
  {
    if !Continues(events[k]) {
      StopAt(events, k);
    }
  }

  lemma NoBytesAt(events: seq<RecvEvent>, k: nat)
    requires k < |events| && ChunkOf(events[k]) == []
    ensures Received(events[..k + 1]) == Received(events[..k])
  {
    ReceivedStep(events, k);
  }

  lemma ReadEndsQuietly(events: seq<RecvEvent>, k: nat)
    requires k < |events| && StopIndex(events) == k && !events[k].Failed?
    ensures ExpectedRead(events) == Response(StripBytes(Received(events[..k + 1])), k + 1)
  {
  }

  lemma ReadEndsFailing(events: seq<RecvEvent>, k: nat)
    requires k < |events| && StopIndex(events) == k && events[k].Failed?
    ensures ExpectedRead(events) == ReadFailed(events[k].cause, k + 1)
  {
  }

  lemma ReadRunsOut(events: seq<RecvEvent>)
    requires StopIndex(events) == |events|
    ensures ExpectedRead(events) == Response(StripBytes(Received(events[..|events|])), |events| + 1)
  {
  }

  lemma ReceivedStep(events: seq<RecvEvent>, k: nat)
    requires k < |events|
    ensures Received(events[..k + 1]) == Received(events[..k]) + ChunkOf(events[k])
  {
    assert events[..k + 1][..k] == events[..k];
  }

  /** What the reader keeps is a prefix of everything the terminal sent. */
  lemma {:induction false} ReceivedPrefix(events: seq<RecvEvent>, k: nat)
    requires k <= |events|
    ensures Received(events[..k]) <= Received(events)
    decreases |events| - k
  {
    if k < |events| {
      ReceivedPrefix(events, k + 1);
      ReceivedStep(events, k);
    } else {
      assert events[..k] == events;
    }
  }

  /** The reader stops at the first stopping event: whatever the socket would
      have delivered afterwards is never asked for and changes nothing, and a
      timeout ends the read normally. */
  lemma ReadStops(events: seq<RecvEvent>, rest: seq<RecvEvent>)
    requires StopIndex(events) < |events|
    ensures ExpectedRead(events + rest) == ExpectedRead(events)
    ensures ExpectedRead(events).recvs == StopIndex(events) + 1 <= |events|
    ensures events[StopIndex(events)].Timeout? ==> ExpectedRead(events).Response?
  {
    var k := StopIndex(events);
    var all := events + rest;
    assert forall j :: 0 <= j <= k ==> all[j] == events[j];
    assert StopIndex(all) == k;
    assert all[..k + 1] == events[..k + 1];
  }

  /** The unstripped reply is a prefix of all the bytes the terminal sent. */
  lemma ReadIsPrefix(events: seq<RecvEvent>)
    ensures ExpectedRead(events).Response? ==>
      exists n :: 0 <= n <= |events| && ExpectedRead(events).data == StripBytes(Received(events[..n]))
        && Received(events[..n]) <= Received(events)
  {
    var k := StopIndex(events);
    var n := if k < |events| then k + 1 else k;
    ReceivedPrefix(events, n);
  }

  /** The bytes of a list of chunks, in order. */
  function Flatten(chunks: seq<seq<byte>>): seq<byte>
    decreases |chunks|
  {
    if chunks == [] then [] else Flatten(chunks[..|chunks| - 1]) + chunks[|chunks| - 1]
  }

  /** The socket delivering each chunk in turn. */
  function AsEvents(chunks: seq<seq<byte>>): (r: seq<RecvEvent>)
    ensures |r| == |chunks|
    ensures forall i :: 0 <= i < |chunks| ==> r[i] == Data(chunks[i])
  {
    seq(|chunks|, i requires 0 <= i < |chunks| => Data(chunks[i]))
  }

  lemma {:induction false} ReceivedChunks(chunks: seq<seq<byte>>, k: nat)
    requires k <= |chunks|
    ensures Received(AsEvents(chunks)[..k]) == Flatten(chunks[..k])
    decreases k
  {
    if k > 0 {
      ReceivedChunks(chunks, k - 1);
      ReceivedStep(AsEvents(chunks), k - 1);
      assert chunks[..k][..k - 1] == chunks[..k - 1];
    } else {
      assert chunks[..0] == [];
    }
  }

  lemma {:induction false} FlattenSplit(chunks: seq<seq<byte>>, k: nat)
    requires k <= |chunks|
    ensures Flatten(chunks) == Flatten(chunks[..k]) + Flatten(chunks[k..])
    decreases |chunks|
  {
    if k < |chunks| {
      var n := |chunks| - 1;
      FlattenSplit(chunks[..n], k);
      assert chunks[..n][..k] == chunks[..k];
      assert chunks[k..][..|chunks[k..]| - 1] == chunks[..n][k..];
    } else {
      assert chunks[..k] == chunks;
    }
  }

  lemma {:induction false} FlattenNonEmpty(chunks: seq<seq<byte>>)
    requires chunks != [] && forall i :: 0 <= i < |chunks| ==> chunks[i] != []
    ensures |Flatten(chunks)| >= 1
  {
  }

  /** Where chunk `k` lies in the flattened bytes. */
  lemma ChunkPosition(chunks: seq<seq<byte>>, k: nat)
    requires k < |chunks|
    ensures Flatten(chunks) == Flatten(chunks[..k]) + chunks[k] + Flatten(chunks[k + 1..])
  {
    FlattenSplit(chunks, k + 1);
    assert chunks[..k + 1][..k] == chunks[..k];
  }

  /** A chunk before the last holds none of the final byte of the message. */
  lemma EarlyChunkContinues(chunks: seq<seq<byte>>, k: nat)
    requires forall i :: 0 <= i < |chunks| ==> chunks[i] != []
    requires k < |chunks| - 1
    requires forall i :: 0 <= i < |Flatten(chunks)| - 1 ==> Flatten(chunks)[i] != Newline
    ensures Continues(Data(chunks[k]))
  {
    ChunkPosition(chunks, k);
    FlattenNonEmpty(chunks[k + 1..]);
    var m := Flatten(chunks);
    var before := |Flatten(chunks[..k])|;
    forall j | 0 <= j < |chunks[k]|
      ensures chunks[k][j] != Newline
    {
      assert m[before + j] == chunks[k][j];
    }
  }

  /** The last chunk ends with the last byte of the message. */
  lemma LastChunk(chunks: seq<seq<byte>>)
    requires chunks != [] && chunks[|chunks| - 1] != []
    ensures Flatten(chunks)[|Flatten(chunks)| - 1] in chunks[|chunks| - 1]
  {
  }

  /** Framing round trip: however the terminal's side of the socket splits an
      encoded request into non-empty chunks, reading it with the same reader
      stops at the last chunk and gives back exactly the JSON text of an object
      payload. */
  lemma EncodedMessageReadsBack(payload: Json.JsonValue, floatRepr: real -> string, chunks: seq<seq<byte>>)
    requires Json.ReprOk(floatRepr) && payload.JObj?
    requires forall i :: 0 <= i < |chunks| ==> chunks[i] != []
    requires Flatten(chunks) == Encode(payload, floatRepr)
    ensures chunks != []
    ensures ExpectedRead(AsEvents(chunks)).Response?
    ensures ExpectedRead(AsEvents(chunks)).recvs == |chunks|
    ensures Decode(ExpectedRead(AsEvents(chunks)).data) == Json.Serialize(payload, floatRepr)
  {
    var m := Encode(payload, floatRepr);
    var events := AsEvents(chunks);
    var n := |chunks|;
    assert n > 0;
    forall k | 0 <= k < n - 1
      ensures Continues(events[k])
    {
      EarlyChunkContinues(chunks, k);
    }
    LastChunk(chunks);
    assert !Continues(events[n - 1]);
    StopAt(events, n - 1);
    ReadEndsQuietly(events, n - 1);
    ReceivedChunks(chunks, n);
    assert chunks[..n] == chunks;
    assert ExpectedRead(events) == Response(StripBytes(m), n);
    ObjectMessageStrip(payload, floatRepr);
  }

  /** Stripping the message of an object payload drops just the line feed. */
  lemma ObjectMessageStrip(payload: Json.JsonValue, floatRepr: real -> string)
    requires Json.ReprOk(floatRepr) && payload.JObj?
    ensures var m := Encode(payload, floatRepr);
      Decode(StripBytes(m)) == Json.Serialize(payload, floatRepr)
  {
    var m := Encode(payload, floatRepr);
    var body := m[..|m| - 1];
    var text := Json.Serialize(payload, floatRepr);
    assert text[0] == '{' && text[|text| - 1] == '}';
    assert Decode(body) == text;
    assert body[0] == 123 && body[|body| - 1] == 125;
    assert m == body + [Newline];
    Strip.StripTrailing(body, IsByteSpace, Newline);
  }

  // ---------------------------------------------------------------------------
  // Classifying the reply: `_interpret_linkly_response`

  /** What `json.loads` makes of the reply text. */
  datatype Parsed = NotJson | Parsed(value: Json.JsonValue)

  /** The classification: approved or not with an optional reason, or an
      exception (a JSON reply that is not an object has no `get`). */
  datatype Verdict = Verdict(approved: bool, message: Option<string>) | Raises

  /** `str()` of a JSON value; arrays and objects are abbreviated. */
  function Stringify(v: Json.JsonValue, floatRepr: real -> string): string {
    match v
    case JNull => "None"
    case JBool(b) => if b then "True" else "False"
    case JInt(i) => Json.IntText(i)
    case JFloat(x) => floatRepr(x)
    case JStr(s) => s
    case JList(_) => "[...]"
    case JObj(_) => "{...}"
  }

  /** The keyword scan over a reply that is not JSON. */
  function KeywordVerdict(text: string): Verdict {
    var upper := Upper(text);
    if Contains(upper, "APPROVED") || Contains(upper, "SUCCESS") then Verdict(true, None)
    else if Contains(upper, "DECLINED") || Contains(upper, "FAILED") || Contains(upper, "ERROR") then Verdict(false, Some(text))
    else Verdict(false, Some(UnrecognizedPrefix + text))
  }

  /** The reading of a JSON object reply. */
  function ObjectVerdict(fields: seq<(string, Json.JsonValue)>, floatRepr: real -> string): Verdict {
    if Json.Truthy(Json.Get(fields, "approved")) || Json.Truthy(Json.Get(fields, "success")) then Verdict(true, None)
    else
      var message := Json.Get(fields, "message");
      var responseText := Json.Get(fields, "responseText");
      var reason :=
        if Json.Truthy(message) then message.value
        else if Json.Truthy(responseText) then responseText.value
        else Json.JStr(DefaultDecline);
      Verdict(false, Some(Stringify(reason, floatRepr)))
  }

  /** `_interpret_linkly_response`: an empty reply is a decline; otherwise the
      decoded, stripped text is parsed (`parse` stands for `json.loads`) and read
      as an object, or scanned for keywords when it is not JSON. */
  function Interpret(response: seq<byte>, parse: string -> Parsed, floatRepr: real -> string): (r: Verdict)
    ensures response == [] ==> r == Verdict(false, Some(NoResponse))
  {
    if response == [] then Verdict(false, Some(NoResponse))
    else
      var text := Strip.Strip(Decode(response), IsSpace);
      match parse(text)
      case NotJson => KeywordVerdict(text)
      case Parsed(v) => if v.JObj? then ObjectVerdict(v.fields, floatRepr) else Raises
  }

  lemma ContainsLonger(h: string, n: string)
    requires Contains(h, n)
    ensures |h| >= |n|
  {
  }

  /** The keyword scan: approval keywords win over decline keywords; a reply
      with a decline keyword is its own reason, any other gets the
      "Unrecognized" prefix; case does not matter. */
  lemma KeywordPrecedence(text: string)
    ensures KeywordVerdict(text).Verdict?
    ensures KeywordVerdict(text).approved <==> Contains(Upper(text), "APPROVED") || Contains(Upper(text), "SUCCESS")
    ensures KeywordVerdict(text).approved <==> KeywordVerdict(text).message.None?
    ensures !KeywordVerdict(text).approved ==>
      (KeywordVerdict(text).message == Some(text) <==>
        Contains(Upper(text), "DECLINED") || Contains(Upper(text), "FAILED") || Contains(Upper(text), "ERROR"))
    ensures !KeywordVerdict(text).approved ==> KeywordVerdict(text).message.value != ""
    ensures (&& !KeywordVerdict(text).approved
             && !(Contains(Upper(text), "DECLINED") || Contains(Upper(text), "FAILED") || Contains(Upper(text), "ERROR"))) ==>
      KeywordVerdict(text).message == Some(UnrecognizedPrefix + text)
  {
    var upper := Upper(text);
    if Contains(upper, "DECLINED") {
      ContainsLonger(upper, "DECLINED");
    } else if Contains(upper, "FAILED") {
      ContainsLonger(upper, "FAILED");
    } else if Contains(upper, "ERROR") {
      ContainsLonger(upper, "ERROR");
    }
    assert |UnrecognizedPrefix + text| != |text|;
  }

  /** A reply carrying both an approval and a decline keyword, in lower case, is
      approved. */
  lemma ApprovedBeatsDeclined()
    ensures KeywordVerdict("declined then approved") == Verdict(true, None)
  {
    var upper := Upper("declined then approved");
    assert upper == "DECLINED THEN APPROVED";
    assert OccursAt(upper, "APPROVED", 14);
  }

  /** A JSON object reply is approved exactly when `approved` or `success` is
      truthy; otherwise the reason is `message`, else `responseText`, else the
      default decline text, and it is never empty. */
  lemma ObjectReasons(fields: seq<(string, Json.JsonValue)>, floatRepr: real -> string)
    requires Json.ReprOk(floatRepr)
    ensures ObjectVerdict(fields, floatRepr).Verdict?
    ensures ObjectVerdict(fields, floatRepr).approved
      <==> Json.Truthy(Json.Get(fields, "approved")) || Json.Truthy(Json.Get(fields, "success"))
    ensures !ObjectVerdict(fields, floatRepr).approved ==>
      && ObjectVerdict(fields, floatRepr).message.Some?
      && ObjectVerdict(fields, floatRepr).message.value != ""
    ensures !ObjectVerdict(fields, floatRepr).approved && Json.Truthy(Json.Get(fields, "message")) ==>
      ObjectVerdict(fields, floatRepr).message == Some(Stringify(Json.Get(fields, "message").value, floatRepr))
    ensures (!ObjectVerdict(fields, floatRepr).approved && !Json.Truthy(Json.Get(fields, "message"))
             && Json.Truthy(Json.Get(fields, "responseText"))) ==>
      ObjectVerdict(fields, floatRepr).message == Some(Stringify(Json.Get(fields, "responseText").value, floatRepr))
    ensures (!ObjectVerdict(fields, floatRepr).approved && !Json.Truthy(Json.Get(fields, "message"))
             && !Json.Truthy(Json.Get(fields, "responseText"))) ==>
      ObjectVerdict(fields, floatRepr).message == Some(DefaultDecline)
    ensures ObjectVerdict(fields, floatRepr).approved ==> ObjectVerdict(fields, floatRepr).message.None?
  {
  }

  /** Every outcome of the classification is either an approval without a
      reason or a decline with a non-empty reason (or the exception of a
      non-object JSON reply). */
  lemma InterpretReasons(response: seq<byte>, parse: string -> Parsed, floatRepr: real -> string)
    requires Json.ReprOk(floatRepr)
    ensures var r := Interpret(response, parse, floatRepr);
      r.Verdict? ==>
        && (r.approved <==> r.message.None?)
        && (!r.approved ==> r.message.value != "")
  {
    if response != [] {
      var text := Strip.Strip(Decode(response), IsSpace);
      match parse(text)
      case NotJson => KeywordPrecedence(text);
      case Parsed(v) => if v.JObj? { ObjectReasons(v.fields, floatRepr); }
    }
  }

  // ---------------------------------------------------------------------------
  // The sale payload: `_build_linkly_sale_payload`

  /** The logged-in staff member, as far as the payload uses it. */
  datatype Staff = Staff(username: Text, name: Text)

  /** The payload fields computed from clock, labels and window (float money
      arithmetic and the timestamp are left abstract). */
  datatype SaleContext = SaleContext(
    staff: Option<Staff>,
    reference: string,
    amountCents: int,
    amount: real,
    subTotal: real,
    discountTotal: real,
    gstTotal: real,
    terminal: string)

  /** A text column as JSON: a missing or null value is `null`. */
  function TextJson(t: Text): Json.JsonValue {
    if t.Str? then Json.JStr(t.s) else Json.JNull
  }

  /** `username`, or else `name`, of the current staff member. */
  function Operator(staff: Option<Staff>): Json.JsonValue {
    if staff.Some? && Truthy(staff.value.username) then TextJson(staff.value.username)
    else if staff.Some? then TextJson(staff.value.name)
    else Json.JNull
  }

  /** The payload entry of one cart item: five of its fields. */
  function ItemJson(item: CartItem): Json.JsonValue {
    Json.JObj([
      ("name", TextJson(item.name)),
      ("barcode", TextJson(item.barcode)),
      ("qty", Json.JFloat(item.qty)),
      ("price", Json.JFloat(item.price)),
      ("amount", Json.JFloat(item.amount))])
  }

  function SalePayload(items: seq<CartItem>, ctx: SaleContext): Json.JsonValue {
    Json.JObj([
      ("type", Json.JStr("SALE")),
      ("reference", Json.JStr(ctx.reference)),
      ("amount_cents", Json.JInt(ctx.amountCents)),
      ("amount", Json.JFloat(ctx.amount)),
      ("currency", Json.JStr("MYR")),
      ("sub_total", Json.JFloat(ctx.subTotal)),
      ("discount_total", Json.JFloat(ctx.discountTotal)),
      ("gst_total", Json.JFloat(ctx.gstTotal)),
      ("items", Json.JList(seq(|items|, i requires 0 <= i < |items| => ItemJson(items[i])))),
      ("operator", Operator(ctx.staff)),
      ("terminal", Json.JStr(ctx.terminal))])
  }

  function Keys(fields: seq<(string, Json.JsonValue)>): seq<string> {
    seq(|fields|, i requires 0 <= i < |fields| => fields[i].0)
  }

  /** A cart item's entry carries exactly its name, barcode, quantity, price
      and amount, and nothing else (no product id, no deduct unit). */
  lemma ItemEntry(item: CartItem)
    ensures ItemJson(item).JObj?
    ensures Keys(ItemJson(item).fields) == ["name", "barcode", "qty", "price", "amount"]
    ensures Json.Get(ItemJson(item).fields, "name") == Some(TextJson(item.name))
    ensures Json.Get(ItemJson(item).fields, "barcode") == Some(TextJson(item.barcode))
    ensures Json.Get(ItemJson(item).fields, "qty") == Some(Json.JFloat(item.qty))
    ensures Json.Get(ItemJson(item).fields, "price") == Some(Json.JFloat(item.price))
    ensures Json.Get(ItemJson(item).fields, "amount") == Some(Json.JFloat(item.amount))
  {
    var fields := ItemJson(item).fields;
    assert fields[0].0 == "name" && fields[1].0 == "barcode" && fields[2].0 == "qty";
    assert fields[3].0 == "price" && fields[4].0 == "amount";
    Json.GetUnique(fields, 0);
    Json.GetUnique(fields, 1);
    Json.GetUnique(fields, 2);
    Json.GetUnique(fields, 3);
    Json.GetUnique(fields, 4);
  }

  /** The payload is a sale in ringgit whose `items` list has one entry per cart
      item, in cart order. */
  lemma PayloadItems(items: seq<CartItem>, ctx: SaleContext)
    ensures var p := SalePayload(items, ctx);
      && p.JObj?
      && Json.Get(p.fields, "type") == Some(Json.JStr("SALE"))
      && Json.Get(p.fields, "currency") == Some(Json.JStr("MYR"))
      && Json.Get(p.fields, "operator") == Some(Operator(ctx.staff))
      && Json.Get(p.fields, "items").Some? && Json.Get(p.fields, "items").value.JList?
      && |Json.Get(p.fields, "items").value.items| == |items|
      && forall i :: 0 <= i < |items| ==> Json.Get(p.fields, "items").value.items[i] == ItemJson(items[i])
  {
    var p := SalePayload(items, ctx);
    Json.GetUnique(p.fields, 0);
    Json.GetUnique(p.fields, 4);
    Json.GetUnique(p.fields, 8);
    Json.GetUnique(p.fields, 9);
  }

  // ---------------------------------------------------------------------------
  // `_process_card_payment`

  /** How connecting to the terminal and sending the request went. */
  datatype Link = Connected | ConnectFailed(cause: string) | SendFailed(cause: string)

  /** `_process_card_payment`: build and send the sale request, read the reply
      and classify it.  A socket error at any step is a decline with the
      "connection failed" reason.  `sent` is what was handed to `sendall`. */
  method ProcessCardPayment(items: seq<CartItem>, ctx: SaleContext, link: Link, events: seq<RecvEvent>,
                            parse: string -> Parsed, floatRepr: real -> string)
    returns (r: Verdict, sent: seq<byte>)
    requires Json.ReprOk(floatRepr)
    ensures link.ConnectFailed? ==> r == Verdict(false, Some(ConnectionFailedPrefix + link.cause)) && sent == []
    ensures !link.ConnectFailed? ==> sent == Encode(SalePayload(items, ctx), floatRepr)
    ensures link.SendFailed? ==> r == Verdict(false, Some(ConnectionFailedPrefix + link.cause))
    ensures link.Connected? && ExpectedRead(events).ReadFailed? ==>
      r == Verdict(false, Some(ConnectionFailedPrefix + ExpectedRead(events).cause))
    ensures link.Connected? && ExpectedRead(events).Response? ==>
      r == Interpret(ExpectedRead(events).data, parse, floatRepr)
    ensures r.Verdict? ==> (r.approved <==> r.message.None?) && (!r.approved ==> r.message.value != "")
  {
    var payload := SalePayload(items, ctx);
    if link.ConnectFailed? {
      return Verdict(false, Some(ConnectionFailedPrefix + link.cause)), [];
    }
    sent := Encode(payload, floatRepr);
    if link.SendFailed? {
      return Verdict(false, Some(ConnectionFailedPrefix + link.cause)), sent;
    }
    var read := ReadResponse(events);
    if read.ReadFailed? {
      return Verdict(false, Some(ConnectionFailedPrefix + read.cause)), sent;
    }
    var v := Interpret(read.data, parse, floatRepr);
    InterpretReasons(read.data, parse, floatRepr);
    if v.Raises? {
      r := Raises;
    } else if v.approved {
      r := Verdict(true, None);
    } else {
      // `message or "Card payment declined."`: the reason is never empty here
      r := Verdict(false, Some(if v.message.Some? && v.message.value != "" then v.message.value else DefaultDecline));
    }
  }
}
