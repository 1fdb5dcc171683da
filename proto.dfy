/** The `Proto<T>` persistence wrapper: a decoded protobuf message kept beside a binary form and a
    JSON text form, re-encoded by the save hook and re-decoded by the load hook. */
module Persistence {
  import opened Wrappers

  newtype byte = x: int | 0 <= x < 256

  /** Why a parser threw. */
  datatype DecodeError = NullInput | Malformed(reason: string)

  /** What the generated message type `T` provides: its parameterless constructor, the Protocol
      Buffers wire format (`ToByteArray` / `MessageParser.ParseFrom`) and the proto3 JSON mapping
      (`JsonFormatter.Format` / `JsonParser.Parse`). The formats themselves are not modelled. */
  datatype Codec<!M> = Codec(
    newMessage: M,
    toByteArray: M -> seq<byte>,
    parseFrom: seq<byte> -> Result<M, DecodeError>,
    format: M -> string,
    parse: string -> Result<M, DecodeError>)

  /** The property the design relies on: each form decodes back to the message it encodes. */
  ghost predicate RoundTrips<M(!new)>(c: Codec<M>) {
    && (forall m :: c.parseFrom(c.toByteArray(m)) == Success(m))
    && (forall m :: c.parse(c.format(m)) == Success(m))
  }

  /** `Parser.ParseFrom(binaryValue)`; a never-serialized (null) array throws. */
  function ParseBinary<M>(c: Codec<M>, binary: Option<seq<byte>>): Result<M, DecodeError> {
    if binary.None? then Failure(NullInput) else c.parseFrom(binary.value)
  }

  /** `JsonParser.Default.Parse<T>(textValue)`; a null string throws. */
  function ParseText<M>(c: Codec<M>, text: Option<string>): Result<M, DecodeError> {
    if text.None? then Failure(NullInput) else c.parse(text.value)
  }

  /** What the load hook yields: the binary form when binary encoding is selected and it parses,
      else the text form; an exception from the text parser escapes. */
  function Deserialize<M>(c: Codec<M>, useBinary: bool, binary: Option<seq<byte>>, text: Option<string>)
    : Result<M, DecodeError>
  {
    if useBinary then
      match ParseBinary(c, binary)
      case Success(m) => Success(m)
      case Failure(_) => ParseText(c, text)
    else
      ParseText(c, text)
  }

  /** A line written to the Unity console. */
  datatype LogEntry = LogError(message: string) | LogException(error: DecodeError)

  const TextBackupMessage := "Error in deserializing proto file. Using text backup."

  /** What the load hook logs: the two console lines written before falling back to the text form. */
  function DeserializeLog<M>(c: Codec<M>, useBinary: bool, binary: Option<seq<byte>>): seq<LogEntry> {
    if useBinary && ParseBinary(c, binary).Failure? then
      [LogError(TextBackupMessage), LogException(ParseBinary(c, binary).error)]
    else
      []
  }

  /** Binary mode with a binary form that parses: that message wins, the text form is not read. */
  lemma BinaryFormWins<M>(c: Codec<M>, binary: Option<seq<byte>>, text: Option<string>, text': Option<string>)
    requires ParseBinary(c, binary).Success?
    ensures Deserialize(c, true, binary, text) == ParseBinary(c, binary)
    ensures Deserialize(c, true, binary, text) == Deserialize(c, true, binary, text')
    ensures DeserializeLog(c, true, binary) == []
  {
  }

  /** Binary mode with a binary form that throws: two console lines, then the text form decides,
      and a failing text form fails the whole hook with the text parser's error. */
  lemma FallbackToText<M>(c: Codec<M>, binary: Option<seq<byte>>, text: Option<string>)
    requires ParseBinary(c, binary).Failure?
    ensures Deserialize(c, true, binary, text) == ParseText(c, text)
    ensures ParseText(c, text).Failure? ==> Deserialize(c, true, binary, text) == Failure(ParseText(c, text).error)
    ensures |DeserializeLog(c, true, binary)| == 2 && DeserializeLog(c, true, binary)[0] == LogError(TextBackupMessage)
  {
  }

  /** Text mode reads only the text form, whatever the binary form holds and even when the text
      form throws; nothing is logged. */
  lemma TextModeIgnoresBinary<M>(c: Codec<M>, binary: Option<seq<byte>>, binary': Option<seq<byte>>, text: Option<string>)
    ensures Deserialize(c, false, binary, text) == ParseText(c, text)
    ensures Deserialize(c, false, binary, text) == Deserialize(c, false, binary', text)
    ensures DeserializeLog(c, false, binary) == []
  {
  }

  /** Loading what the save hook wrote gives the message back, in either mode, without logging. */
  lemma SaveThenLoadRestores<M(!new)>(c: Codec<M>, useBinary: bool, m: M)
    requires RoundTrips(c)
    ensures Deserialize(c, useBinary, Some(c.toByteArray(m)), Some(c.format(m))) == Success(m)
    ensures DeserializeLog(c, useBinary, Some(c.toByteArray(m))) == []
  {
  }

  /** `[Serializable] class Proto<T>`: the decoded message, the encoding preference, the two
      persisted forms and the unused `protoHash`; `log` stands for the Unity console. */
  class Proto<M> {
    const codec: Codec<M>
    var UseBinaryEncoding: bool
    var binaryValue: Option<seq<byte>>
    var textValue: Option<string>
    var Value: M
    var protoHash: int
    var log: seq<LogEntry>

    /** Both persisted forms encode the current message. */
    ghost predicate Synced()
      reads this
    {
      binaryValue == Some(codec.toByteArray(Value)) && textValue == Some(codec.format(Value))
    }

    /** `Proto()`: wraps `new T()`. */
    constructor Default(codec: Codec<M>)
      ensures this.codec == codec && Value == codec.newMessage && UseBinaryEncoding
      ensures binaryValue == None && textValue == None && protoHash == 0 && log == []
    {
      this.codec := codec;
      Value := codec.newMessage;
      UseBinaryEncoding := true;
      binaryValue, textValue := None, None;
      protoHash := 0;
      log := [];
    }

    /** `Proto(value, binary)`: the `binary` argument is accepted and ignored. */
    constructor (codec: Codec<M>, value: M, binary: bool)
      ensures this.codec == codec && Value == value && UseBinaryEncoding
      ensures binaryValue == None && textValue == None && protoHash == 0 && log == []
    {
      this.codec := codec;
      Value := value;
      UseBinaryEncoding := true;
      binaryValue, textValue := None, None;
      protoHash := 0;
      log := [];
    }

    /** The save hook: refreshes both forms, whatever the encoding preference. */
    method OnBeforeSerialize()
      modifies this`binaryValue, this`textValue
      ensures binaryValue == Some(codec.toByteArray(Value))
      ensures textValue == Some(codec.format(Value))
      ensures Synced()
    {
      binaryValue := Some(codec.toByteArray(Value));
      textValue := Some(codec.format(Value));
    }

    /** The load hook: in binary mode, parse the binary form and on an exception log two lines and
        parse the text form instead; in text mode parse the text form only. An exception from the
        text parser escapes (`Fail`) and leaves `Value` as it was. The forms are never written. */
    method OnAfterDeserialize() returns (outcome: Outcome<DecodeError>)
      modifies this`Value, this`log
      ensures var r := Deserialize(codec, UseBinaryEncoding, binaryValue, textValue);
        && (r.Success? ==> outcome == Pass && Value == r.value)
        && (r.Failure? ==> outcome == Fail(r.error) && Value == old(Value))
      ensures log == old(log) + DeserializeLog(codec, UseBinaryEncoding, binaryValue)
    {
      if UseBinaryEncoding {
        var parsed := ParseBinary(codec, binaryValue);
        if parsed.Success? {
          Value := parsed.value;
          outcome := Pass;
        } else {
          log := log + [LogError(TextBackupMessage), LogException(parsed.error)];
          outcome := LoadText();
        }
      } else {
        outcome := LoadText();
      }
    }

    /** `Value = JsonParser.Default.Parse<T>(textValue)`. */
    method LoadText() returns (outcome: Outcome<DecodeError>)
      modifies this`Value
      ensures ParseText(codec, textValue).Success? ==> outcome == Pass && Value == ParseText(codec, textValue).value
      ensures ParseText(codec, textValue).Failure? ==> outcome == Fail(ParseText(codec, textValue).error) && Value == old(Value)
    {
      var parsed := ParseText(codec, textValue);
      if parsed.Success? {
        Value := parsed.value;
        outcome := Pass;
      } else {
        outcome := Fail(parsed.error);
      }
    }
  }

  /** A save followed by a load restores the message in either mode and leaves both forms in step;
      nothing is logged. */
  method SaveLoadCycle<M(!new)>(p: Proto<M>) returns (outcome: Outcome<DecodeError>)
    requires RoundTrips(p.codec)
    modifies p
    ensures outcome == Pass && p.Value == old(p.Value) && p.Synced() && p.log == old(p.log)
    ensures p.UseBinaryEncoding == old(p.UseBinaryEncoding) && p.protoHash == old(p.protoHash)
  {
    p.OnBeforeSerialize();
    SaveThenLoadRestores(p.codec, p.UseBinaryEncoding, p.Value);
    outcome := p.OnAfterDeserialize();
  }
}
