/** JsonConverter and the hexadecimal text of blobs: what of a value survives the way into JSON and back. */
module Json {
  import opened Wrappers
  import opened Framing

  // ---------------------------------------------------------------- blobs

  const HEX_ARRAY := "0123456789ABCDEF"

  function Hex(bytes: Bytes): (s: string)
    ensures |s| == 2 * |bytes|
  {
    if bytes == [] then "" else Hex(bytes[..|bytes| - 1]) + HexByte(bytes[|bytes| - 1])
  }

  function HexByte(b: byte): (s: string)
    ensures |s| == 2
  {
    [HEX_ARRAY[b as int / 16], HEX_ARRAY[b as int % 16]]
  }

  function Digit(c: char): Option<nat> {
    if '0' <= c <= '9' then Some(c as nat - '0' as nat)
    else if 'A' <= c <= 'F' then Some(c as nat - 'A' as nat + 10)
    else None
  }

  // The bytes of a text of pairs of hexadecimal digits.
  function FromHex(s: string): Option<Bytes> {
    if s == "" then Some([])
    else if |s| < 2 then None
    else
      var rest, high, low := FromHex(s[..|s| - 2]), Digit(s[|s| - 2]), Digit(s[|s| - 1]);
      if rest.None? || high.None? || low.None? || high.value > 15 || low.value > 15 then None
      else Some(rest.value + [(16 * high.value + low.value) as byte])
  }

  lemma DigitOf(n: nat)
    requires n < 16
    ensures Digit(HEX_ARRAY[n]) == Some(n)
  {
    assert HEX_ARRAY[n] == if n < 10 then '0' + n as char else 'A' + (n - 10) as char;
  }

  lemma ByteRoundTrip(b: byte)
    ensures Digit(HexByte(b)[0]) == Some(b as nat / 16) && Digit(HexByte(b)[1]) == Some(b as nat % 16)
  {
    DigitOf(b as nat / 16);
    DigitOf(b as nat % 16);
  }

  // Two more digits are one more byte.
  lemma ByteAppended(s: string, b: byte)
    requires FromHex(s).Some?
    ensures FromHex(s + HexByte(b)) == Some(FromHex(s).value + [b])
  {
    var t := s + HexByte(b);
    ByteRoundTrip(b);
    assert t[..|t| - 2] == s && t[|t| - 2] == HexByte(b)[0] && t[|t| - 1] == HexByte(b)[1];
    hide Digit, HexByte;
  }

  /** The text of a byte array tells the bytes. */
  lemma {:induction false} HexRoundTrip(bytes: Bytes)
    ensures FromHex(Hex(bytes)) == Some(bytes)
  {
    if bytes != [] {
      var init, last := bytes[..|bytes| - 1], bytes[|bytes| - 1];
      HexRoundTrip(init);
      assert Hex(bytes) == Hex(init) + HexByte(last);
      hide FromHex, Hex, HexByte;
      ByteAppended(Hex(init), last);
      assert bytes == init + [last];
    }
  }

  method BytesToHex(bytes: Bytes) returns (text: string)
    ensures text == Hex(bytes)
  {
    var hexChars := new char[|bytes| * 2](_ => ' ');
    for j := 0 to |bytes|
      invariant hexChars[..2 * j] == Hex(bytes[..j])
    {
      var v := bytes[j] as int;
      hexChars[j * 2] := HEX_ARRAY[v / 16];
      hexChars[j * 2 + 1] := HEX_ARRAY[v % 16];
      assert bytes[..j + 1][..j] == bytes[..j];
      assert hexChars[..2 * (j + 1)] == hexChars[..2 * j] + HexByte(bytes[j]);
    }
    assert bytes[..|bytes|] == bytes && hexChars[..2 * |bytes|] == hexChars[..];
    text := hexChars[..];
  }

  function BlobString(bytes: Bytes): string {
    "X'" + Hex(bytes) + "'"
  }

  // The bytes of a blob literal of SQL.
  function BlobBytes(text: string): Option<Bytes> {
    if |text| < 3 || text[..2] != "X'" || text[|text| - 1] != '\'' then None
    else FromHex(text[2..|text| - 1])
  }

  lemma BlobRoundTrip(bytes: Bytes)
    ensures BlobBytes(BlobString(bytes)) == Some(bytes)
  {
    var text := BlobString(bytes);
    assert text[..2] == "X'" && text[2..|text| - 1] == Hex(bytes);
    HexRoundTrip(bytes);
  }

  /** The text is a blob literal, from which the bytes can be read back. */
  method ToBlobString(blob: Bytes) returns (text: string)
    ensures text == BlobString(blob) && BlobBytes(text) == Some(blob) && |text| == 2 * |blob| + 3
  {
    var hex := BytesToHex(blob);
    text := "X'" + hex + "'";
    BlobRoundTrip(blob);
  }

  lemma BlobText()
    ensures BlobString([]) == "X''" && BlobString([0, 0xA5, 0xFF]) == "X'00A5FF'"
  {
    assert Hex([]) == "";
    HexOfThree(0, 0xA5, 0xFF);
    assert HexByte(0) == "00" && HexByte(0xA5) == "A5" && HexByte(0xFF) == "FF";
  }

  lemma HexOfThree(a: byte, b: byte, c: byte)
    ensures Hex([a, b, c]) == HexByte(a) + HexByte(b) + HexByte(c)
  {
    assert [a, b, c][..2] == [a, b] && [a, b][..1] == [a] && [a][..0] == [];
    assert Hex([a]) == "" + HexByte(a) && Hex([a, b]) == Hex([a]) + HexByte(b);
    hide HexByte;
  }

  lemma BlobStringsDiffer(a: Bytes, b: Bytes)
    ensures BlobString(a) == BlobString(b) ==> a == b
  {
    BlobRoundTrip(a);
    BlobRoundTrip(b);
  }

  // ---------------------------------------------------------------- values

  // A double is given by its bits; all that matters here is whether it is a finite number.
  datatype Value =
    | Null                       // a null reference
    | NullMarker                 // JSONObject.NULL
    | Bool(b: bool)
    | Integer(n: int)
    | Double(bits: int, finite: bool)
    | Text(s: string)
    | Blob(bytes: Bytes)
    | List(items: seq<Value>)
    | Map(entries: map<string, Value>)

  datatype JsonValue =
    | JNull
    | JBool(b: bool)
    | JInteger(n: int)
    | JDouble(bits: int, finite: bool)
    | JText(s: string)
    | JArray(items: seq<JsonValue>)
    | JObject(entries: map<string, JsonValue>)

  // JSONObject.put throws for a number that JSON cannot express, and the entry is left out.
  predicate CanPut(v: Value) {
    v.Double? ==> v.finite
  }

  function ToJson(v: Value): JsonValue {
    match v
    case Null => JNull
    case NullMarker => JNull
    case Bool(b) => JBool(b)
    case Integer(n) => JInteger(n)
    case Double(bits, finite) => JDouble(bits, finite)
    case Text(s) => JText(s)
    case Blob(bytes) => JArray([JText(BlobString(bytes))])
    case List(items) => JArray(seq(|items|, i requires 0 <= i < |items| => ToJson(items[i])))
    case Map(entries) => JObject(map key | key in entries && CanPut(entries[key]) :: ToJson(entries[key]))
  }

  function FromJson(j: JsonValue): Value {
    match j
    case JNull => NullMarker
    case JBool(b) => Bool(b)
    case JInteger(n) => Integer(n)
    case JDouble(bits, finite) => Double(bits, finite)
    case JText(s) => Text(s)
    case JArray(items) => List(seq(|items|, i requires 0 <= i < |items| => FromJson(items[i])))
    case JObject(entries) => Map(map key | key in entries :: FromJson(entries[key]))
  }

  /** What comes back: null as its marker, a blob as a list of its text, and everything else as it was. */
  function Normal(v: Value): Value {
    match v
    case Null => NullMarker
    case Blob(bytes) => List([Text(BlobString(bytes))])
    case List(items) => List(seq(|items|, i requires 0 <= i < |items| => Normal(items[i])))
    case Map(entries) => Map(map key | key in entries :: Normal(entries[key]))
    case _ => v
  }

  /** No map in the value has an infinite double or a NaN for an entry. */
  ghost predicate Complete(v: Value) {
    match v
    case List(items) => forall i :: 0 <= i < |items| ==> Complete(items[i])
    case Map(entries) => forall key :: key in entries ==> CanPut(entries[key]) && Complete(entries[key])
    case _ => true
  }

  /** A value comes back from JSON normal exactly if it is complete; otherwise entries are missing. */
  lemma {:induction false} RoundTripExactly(v: Value)
    ensures FromJson(ToJson(v)) == Normal(v) <==> Complete(v)
  {
    match v
    case List(items) =>
      forall i | 0 <= i < |items| ensures FromJson(ToJson(items[i])) == Normal(items[i]) <==> Complete(items[i]) {
        RoundTripExactly(items[i]);
      }
      ListRoundTrip(items);
    case Map(entries) =>
      forall key | key in entries ensures FromJson(ToJson(entries[key])) == Normal(entries[key]) <==>
        Complete(entries[key]) {
        RoundTripExactly(entries[key]);
      }
      MapRoundTrip(entries);
    case Blob(bytes) =>
      assert FromJson(ToJson(v)).items == [Text(BlobString(bytes))];
    case _ =>
  }

  /** What JSON has for itself is the same there. */
  lemma PlainValues(b: bool, n: int, bits: int, finite: bool, s: string)
    ensures ToJson(Bool(b)) == JBool(b) && ToJson(Integer(n)) == JInteger(n) && ToJson(Text(s)) == JText(s)
    ensures ToJson(Double(bits, finite)) == JDouble(bits, finite) && ToJson(Null) == JNull == ToJson(NullMarker)
    ensures FromJson(JBool(b)) == Bool(b) && FromJson(JInteger(n)) == Integer(n) && FromJson(JText(s)) == Text(s)
    ensures FromJson(JDouble(bits, finite)) == Double(bits, finite) && FromJson(JNull) == NullMarker
  {
  }

  /** An infinite double in a map does not come back: its entry is missing. */
  lemma InfinityIsDropped(key: string, bits: int)
    ensures var v := Map(map[key := Double(bits, false)]);
            !Complete(v) && FromJson(ToJson(v)) == Map(map[]) && Normal(v) == v
  {
    var v := Map(map[key := Double(bits, false)]);
    assert v.entries[key] == Double(bits, false) && ToJson(v).entries == map[];
    assert Normal(v).entries == v.entries;
  }

  lemma ListRoundTrip(items: seq<Value>)
    ensures FromJson(ToJson(List(items))) == Normal(List(items)) <==>
              forall i :: 0 <= i < |items| ==> FromJson(ToJson(items[i])) == Normal(items[i])
  {
    var back, normal := FromJson(ToJson(List(items))).items, Normal(List(items)).items;
    assert forall i :: 0 <= i < |items| ==> back[i] == FromJson(ToJson(items[i])) && normal[i] == Normal(items[i]);
  }

  lemma MapRoundTrip(entries: map<string, Value>)
    ensures FromJson(ToJson(Map(entries))) == Normal(Map(entries)) <==>
              forall key :: key in entries ==>
                CanPut(entries[key]) && FromJson(ToJson(entries[key])) == Normal(entries[key])
  {
    var back, normal := FromJson(ToJson(Map(entries))).entries, Normal(Map(entries)).entries;
    assert forall key :: key in normal <==> key in entries;
    assert forall key :: key in back <==> key in entries && CanPut(entries[key]);
    assert forall key :: key in back ==>
      back[key] == FromJson(ToJson(entries[key])) && normal[key] == Normal(entries[key]);
    if back == normal {
      forall key | key in entries
        ensures CanPut(entries[key]) && FromJson(ToJson(entries[key])) == Normal(entries[key])
      {
        assert key in normal;
      }
    }
  }

  // ---------------------------------------------------------------- the conversions in place

  method ToJsonValue(o: Value) returns (j: JsonValue)
    ensures j == ToJson(o)
    decreases o, 1
  {
    match o {
      case Null => j := JNull;
      case NullMarker => j := JNull;
      case List(items) => j := CollectionToArray(items, o);
      case Blob(bytes) =>
        var text := ToBlobString(bytes);
        j := JArray([JText(text)]);
      case Map(entries) => j := MapToObject(entries, o);
      case Bool(b) => j := JBool(b);
      case Integer(n) => j := JInteger(n);
      case Double(bits, finite) => j := JDouble(bits, finite);
      case Text(s) => j := JText(s);
    }
  }

  method CollectionToArray(items: seq<Value>, ghost o: Value) returns (j: JsonValue)
    requires o == List(items)
    ensures j == ToJson(o)
    decreases o, 0
  {
    var elements: seq<JsonValue> := [];
    for i := 0 to |items|
      invariant |elements| == i && forall k :: 0 <= k < i ==> elements[k] == ToJson(items[k])
    {
      var value := ToJsonValue(items[i]);
      elements := elements + [value];
    }
    j := JArray(elements);
    assert j.items == ToJson(o).items;
  }

  method MapToObject(entries: map<string, Value>, ghost o: Value) returns (j: JsonValue)
    requires o == Map(entries)
    ensures j == ToJson(o)
    decreases o, 0
  {
    var jsonObj: map<string, JsonValue> := map[];
    var keys := entries.Keys;
    while keys != {}
      invariant keys <= entries.Keys
      invariant forall key :: key in jsonObj <==> key in entries && key !in keys && CanPut(entries[key])
      invariant forall key :: key in jsonObj ==> jsonObj[key] == ToJson(entries[key])
      decreases |keys|
    {
      var key :| key in keys;
      keys := keys - {key};
      var value := ToJsonValue(entries[key]);
      if !(value.JDouble? && !value.finite) {
        jsonObj := jsonObj[key := value];
      }
    }
    j := JObject(jsonObj);
    assert j.entries == ToJson(o).entries;
  }

  method FromJsonValue(input: JsonValue) returns (v: Value)
    ensures v == FromJson(input)
    decreases input, 1
  {
    match input {
      case JObject(entries) => v := FromObject(entries, input);
      case JArray(items) => v := FromArray(items, input);
      case JNull => v := NullMarker;
      case JBool(b) => v := Bool(b);
      case JInteger(n) => v := Integer(n);
      case JDouble(bits, finite) => v := Double(bits, finite);
      case JText(s) => v := Text(s);
    }
  }

  method FromArray(items: seq<JsonValue>, ghost input: JsonValue) returns (v: Value)
    requires input == JArray(items)
    ensures v == FromJson(input)
    decreases input, 0
  {
    var list: seq<Value> := [];
    for i := 0 to |items|
      invariant |list| == i && forall k :: 0 <= k < i ==> list[k] == FromJson(items[k])
    {
      var value := FromJsonValue(items[i]);
      list := list + [value];
    }
    v := List(list);
    assert v.items == FromJson(input).items;
  }

  method FromObject(entries: map<string, JsonValue>, ghost input: JsonValue) returns (v: Value)
    requires input == JObject(entries)
    ensures v == FromJson(input)
    decreases input, 0
  {
    var result: map<string, Value> := map[];
    var keys := entries.Keys;
    while keys != {}
      invariant keys <= entries.Keys
      invariant forall key :: key in result <==> key in entries && key !in keys
      invariant forall key :: key in result ==> result[key] == FromJson(entries[key])
      decreases |keys|
    {
      var key :| key in keys;
      keys := keys - {key};
      var value := FromJsonValue(entries[key]);
      result := result[key := value];
    }
    v := Map(result);
    assert v.entries == FromJson(input).entries;
  }
}
