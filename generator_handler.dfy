/** The generator handler: build the table, name the object after the UTC
    time, upload it, and answer with a JSON body naming the uploaded object.
    The upload is the key it returns; the text rendering of the table and the
    local file are not modelled. */
module GeneratorHandler {
  import opened Results
  import opened PyStr
  import opened Lambda
  import opened GeneratorTable
  import opened TimestampKey

  // ------------------------------------------------------------ json.dumps

  function HexDigit(d: nat): (c: char)
    requires d < 16
    ensures '0' <= c <= '9' || 'a' <= c <= 'f'
  {
    if d < 10 then ('0' as int + d) as char else ('a' as int + d - 10) as char
  }

  /** Four lower-case hexadecimal digits, as `'\\u{0:04x}'` writes them. */
  function Hex4(n: nat): (h: string)
    requires n < 0x1_0000
    ensures |h| == 4 && forall i :: 0 <= i < 4 ==> '0' <= h[i] <= '9' || 'a' <= h[i] <= 'f'
  {
    [HexDigit(n / 0x1000), HexDigit(n / 0x100 % 16), HexDigit(n / 0x10 % 16), HexDigit(n % 16)]
  }

  /** A character `json.dumps` copies as it is (printable ASCII other than the
      quote and the backslash). */
  predicate JsonPlain(c: char)
  {
    ' ' <= c <= '~' && c != '"' && c != '\\'
  }

  predicate AllPlain(s: string)
  {
    forall i :: 0 <= i < |s| ==> JsonPlain(s[i])
  }

  /** Every character of `s` from position `i` on is plain, checked one
      character at a time. */
  predicate PlainFrom(s: string, i: nat)
    decreases |s| - i
  {
    i >= |s| || (JsonPlain(s[i]) && PlainFrom(s, i + 1))
  }

  lemma {:induction false} PlainFromAt(s: string, i: nat)
    requires PlainFrom(s, i)
    ensures forall j :: i <= j < |s| ==> JsonPlain(s[j])
    decreases |s| - i
  {
    if i < |s| {
      PlainFromAt(s, i + 1);
    }
  }

  /** Printable ASCII, the only characters an `ensure_ascii` dump contains. */
  predicate Printable(s: string)
  {
    forall i :: 0 <= i < |s| ==> ' ' <= s[i] <= '~'
  }

  /** How `json.dumps` (with `ensure_ascii`) writes one character of a string. */
  function JsonEscapeChar(c: char): (e: string)
    ensures |e| >= 1 && Printable(e)
    ensures e == [c] <==> JsonPlain(c)
  {
    var n := c as int;
    if JsonPlain(c) then [c]
    else if c == '"' then "\\\""
    else if c == '\\' then "\\\\"
    else if n == 0x08 then "\\b"
    else if n == 0x0C then "\\f"
    else if c == '\n' then "\\n"
    else if c == '\r' then "\\r"
    else if c == '\t' then "\\t"
    else if n < 0x1_0000 then "\\u" + Hex4(n)
    else
      var v := n - 0x1_0000;
      "\\u" + Hex4(0xD800 + v / 0x400) + "\\u" + Hex4(0xDC00 + v % 0x400)
  }

  /** The characters of a JSON string literal without its quotes: every
      escape is printable ASCII and no character is dropped. */
  function JsonEscape(s: string): (r: string)
    ensures |r| >= |s|
    ensures Printable(r)
  {
    if s == [] then []
    else
      var head := JsonEscapeChar(s[0]);
      var tail := JsonEscape(s[1..]);
      assert forall i :: |head| <= i < |head + tail| ==> (head + tail)[i] == tail[i - |head|];
      head + tail
  }

  /** Strings of plain characters are written unchanged. */
  lemma {:induction false} JsonEscapePlain(s: string)
    requires AllPlain(s)
    ensures JsonEscape(s) == s
  {
    if s != [] {
      JsonEscapePlain(s[1..]);
      assert s == [s[0]] + s[1..];
    }
  }

  /** `json.dumps({"message": message})` with the default separators. */
  function MessageBody(message: string): (body: string)
    ensures Printable(body)
    ensures Contains(body, JsonEscape(message))
  {
    var open, close := "{\"message\": \"", "\"}";
    assert Printable(open) && Printable(close);
    var body := open + JsonEscape(message) + close;
    assert forall i :: |open| <= i < |open| + |JsonEscape(message)| ==> body[i] == JsonEscape(message)[i - |open|];
    assert forall i :: |open| + |JsonEscape(message)| <= i < |body| ==> body[i] == close[i - |open| - |JsonEscape(message)|];
    ContainsMiddle(open, JsonEscape(message), close);
    body
  }

  // ------------------------------------------------------------- handler

  /** The words before the object's address in the upload message, written
      as short pieces so that each piece can be checked character by
      character. */
  const UploadLead: string := "Sample data " + "generated " + "and uploaded " + "to "

  /** The message names the object's address and ends with its key. */
  function UploadMessage(key: string): (message: string)
    ensures Contains(message, "s3://" + BucketName + "/" + key)
    ensures EndsWith(message, key)
  {
    var address := "s3://" + BucketName + "/" + key;
    ContainsMiddle(UploadLead, address, []);
    assert UploadLead + address + [] == UploadLead + address;
    assert UploadLead + address == UploadLead + "s3://" + BucketName + "/" + key;
    UploadLead + address
  }

  /** One run: the table written to the bucket, the key it was written under,
      and the response. */
  datatype GeneratorReport = GeneratorReport(data: SampleData, key: string, response: Response)

  /** One invocation at UTC time `now`. */
  function HandleGenerate(
    fakeName: nat -> string, fakeCity: nat -> string,
    ageDraw: nat -> nat, quantityDraw: nat -> nat, priceDraw: nat -> nat,
    now: UtcTime)
    : (r: Result<GeneratorReport, GeneratorError>)
    requires ValidTime(now)
    ensures r.Failure? <==> exists i :: 0 <= i < RowCount && |Split(fakeName(i))| < 2
    ensures r.Success? ==>
      r.value.data == GenerateSample(fakeName, fakeCity, ageDraw, quantityDraw, priceDraw).value &&
      r.value.key == ObjectKey(now) && r.value.response.statusCode == StatusOk
  {
    match GenerateSample(fakeName, fakeCity, ageDraw, quantityDraw, priceDraw)
    case Failure(e) => Failure(e)
    case Success(data) =>
      var key := ObjectKey(now);
      Success(GeneratorReport(data, key, Response(StatusOk, MessageBody(UploadMessage(key)))))
  }

  lemma PlainConcat(a: string, b: string)
    requires AllPlain(a) && AllPlain(b)
    ensures AllPlain(a + b)
  {
    forall i | 0 <= i < |a + b|
      ensures JsonPlain((a + b)[i])
    {
      if i >= |a| {
        assert (a + b)[i] == b[i - |a|];
      }
    }
  }

  /** A short literal is checked to be plain character by character. */
  lemma LiteralPlain(s: string)
    requires PlainFrom(s, 0)
    ensures AllPlain(s)
  {
    PlainFromAt(s, 0);
  }

  /** The characters of an object key need no escaping. */
  lemma ObjectKeyIsPlain(t: UtcTime)
    requires ValidTime(t)
    ensures AllPlain(ObjectKey(t))
  {
    LiteralPlain("test_");
    LiteralPlain("_");
    LiteralPlain(".txt");
    var y, mo, d := Padded(t.year, 4), Padded(t.month, 2), Padded(t.day, 2);
    var h, mi, s := Padded(t.hour, 2), Padded(t.minute, 2), Padded(t.second, 2);
    PlainConcat("test_", y);
    PlainConcat("test_" + y, mo);
    PlainConcat("test_" + y + mo, d);
    PlainConcat("test_" + y + mo + d, "_");
    PlainConcat("test_" + y + mo + d + "_", h);
    PlainConcat("test_" + y + mo + d + "_" + h, mi);
    PlainConcat("test_" + y + mo + d + "_" + h + mi, s);
    PlainConcat("test_" + y + mo + d + "_" + h + mi + s, ".txt");
  }

  /** The upload message of a plain key needs no escaping. */
  lemma UploadMessagePlain(key: string)
    requires AllPlain(key)
    ensures JsonEscape(UploadMessage(key)) == UploadMessage(key)
  {
    LiteralPlain("Sample data ");
    LiteralPlain("generated ");
    LiteralPlain("and uploaded ");
    LiteralPlain("to ");
    LiteralPlain("s3://");
    // the bucket name in short pieces, each checked character by character
    LiteralPlain("my-");
    LiteralPlain("lambda-");
    LiteralPlain("stack");
    PlainConcat("my-", "lambda-");
    PlainConcat("my-" + "lambda-", "stack");
    assert BucketName == "my-" + "lambda-" + "stack";
    LiteralPlain("/");
    PlainConcat("Sample data ", "generated ");
    PlainConcat("Sample data " + "generated ", "and uploaded ");
    PlainConcat("Sample data " + "generated " + "and uploaded ", "to ");
    PlainConcat("s3://", BucketName);
    PlainConcat("s3://" + BucketName, "/");
    PlainConcat("s3://" + BucketName + "/", key);
    PlainConcat(UploadLead, "s3://" + BucketName + "/" + key);
    JsonEscapePlain(UploadMessage(key));
  }

  /** The body of a successful run is the JSON object whose message names
      `s3://my-lambda-stack/<key>` for the key just written. */
  lemma ResponseNamesUpload(
    fakeName: nat -> string, fakeCity: nat -> string,
    ageDraw: nat -> nat, quantityDraw: nat -> nat, priceDraw: nat -> nat,
    now: UtcTime)
    requires ValidTime(now)
    requires HandleGenerate(fakeName, fakeCity, ageDraw, quantityDraw, priceDraw, now).Success?
    ensures var report := HandleGenerate(fakeName, fakeCity, ageDraw, quantityDraw, priceDraw, now).value;
      report.response.body == "{\"message\": \"" + UploadMessage(report.key) + "\"}" &&
      Contains(report.response.body, "s3://" + BucketName + "/" + report.key)
  {
    var key := ObjectKey(now);
    ObjectKeyIsPlain(now);
    UploadMessagePlain(key);
    var open := "{\"message\": \"" + UploadLead;
    var body := "{\"message\": \"" + UploadMessage(key) + "\"}";
    assert body == open + ("s3://" + BucketName + "/" + key) + "\"}";
    ContainsMiddle(open, "s3://" + BucketName + "/" + key, "\"}");
  }
}
