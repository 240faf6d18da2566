/** Request payloads in the words of their format: field names, roles, block types and markers. */
module PayloadShape {
  import opened Common
  import opened JsonValue

  predicate Marked(v: Value) {
    v.Object? && "cache_control" in v.fields
  }

  function WithMarker(v: Value): Value
    requires v.Object?
  {
    Object(v.fields["cache_control" := Object(map["type" := String("ephemeral")])])
  }

  function WithoutMarker(v: Value): Value
    requires v.Object?
  {
    Object(v.fields - {"cache_control"})
  }

  /** The text block that a plain string becomes. */
  function MarkedText(s: string): Value {
    Object(map["type" := String("text"), "text" := String(s),
               "cache_control" := Object(map["type" := String("ephemeral")])])
  }

  predicate Says(v: Value, key: string, s: string) {
    v.Object? && key in v.fields && v.fields[key] == String(s)
  }

  predicate HasContent(m: Value) {
    m.Object? && "content" in m.fields
  }

  predicate Deferred(tool: Value) {
    tool.Object? && "defer_loading" in tool.fields && tool.fields["defer_loading"] == Bool(true)
  }

  predicate Thinks(block: Value) {
    Says(block, "type", "thinking") || Says(block, "type", "redacted_thinking")
  }

  // The characters with the Unicode property White_Space.
  const WHITE_SPACE := "\U{0009}\U{000A}\U{000B}\U{000C}\U{000D}\U{0020}\U{0085}\U{00A0}\U{1680}" +
                       "\U{2000}\U{2001}\U{2002}\U{2003}\U{2004}\U{2005}\U{2006}\U{2007}\U{2008}\U{2009}\U{200A}" +
                       "\U{2028}\U{2029}\U{202F}\U{205F}\U{3000}"

  predicate Blank(s: string) {
    forall i :: 0 <= i < |s| ==> s[i] in WHITE_SPACE
  }

  /**
   A message that can carry the rolling marker: from the user or the assistant, with a text or with
   blocks, of which the last one is not the assistant's thinking.
   */
  predicate CanRoll(m: Value) {
    && (Says(m, "role", "user") || Says(m, "role", "assistant")) && HasContent(m)
    && match m.fields["content"]
       case String(_) => true
       case Array(blocks) => blocks != [] && (Says(m, "role", "assistant") ==> !Thinks(blocks[|blocks| - 1]))
       case _ => false
  }

  /** The last message is a system message with a text that is not blank. */
  predicate EndsWithInstruction(ms: seq<Value>) {
    && ms != [] && Says(ms[|ms| - 1], "role", "system") && HasContent(ms[|ms| - 1])
    && match ms[|ms| - 1].fields["content"]
       case String(s) => !Blank(s)
       case _ => false
  }
}
