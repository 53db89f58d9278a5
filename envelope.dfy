/** The message envelope (`RedisMessageModel`) and its text form, kept opaque: a message is the
    member text of one JSON object, and its encoding wraps that text in braces. */
module Envelope {
  import opened Wrappers

  datatype Message = Message(fields: string)

  /** `JSON.toJSONString(message)`. */
  function Encode(m: Message): string
  {
    "{" + m.fields + "}"
  }

  /** `JSON.parseObject(text, RedisMessageModel.class)`: `None` stands both for a text that does
      not parse (the parser throws) and for the literal "null" (the parser yields null). */
  function Decode(text: string): Option<Message>
  {
    if |text| >= 2 && text[0] == '{' && text[|text| - 1] == '}' then Some(Message(text[1..|text| - 1]))
    else None
  }

  /** Decoding an encoded envelope gives the envelope back. */
  lemma DecodeEncode(m: Message)
    ensures Decode(Encode(m)) == Some(m)
  {
    var t := Encode(m);
    assert t[1..|t| - 1] == m.fields;
  }

  /** The text "null" and the empty text decode to no message. */
  lemma DecodeNull()
    ensures Decode("null") == None && Decode("") == None
  {
  }
}
