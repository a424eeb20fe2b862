/** Values and events that the Discord facade passes to its Gateway clients. */
module Discord {
  import opened Text

  /** A decoded JSON value, up to Python's ==, under which true equals 1 and false equals 0. */
  datatype Json =
    | Null
    | Num(n: real)
    | Str(s: string)
    | Arr(items: seq<Json>)
    | Obj(fields: map<string, Json>)

  type Fields = map<string, Json>

  /** dict.get(key): a missing key reads as None. */
  function Get(fields: Fields, key: string): Json
  {
    if key in fields then fields[key] else Null
  }

  datatype Event =
    | Ready
    | Resumed
    | MessageCreate(id: string, message: Fields)
    | MessageUpdate(id: string, message: Fields)
    | MessageDelete(id: string, channel: Json, guild: Option<Json>)
    | ReactionAdd(id: string, channel: Json, emoji: Json, guild: Option<Json>)
    | ReactionRemove(id: string, channel: Json, emoji: Json, guild: Option<Json>)
    | InteractionCreate(token: string)
    | Other(name: string)

  /** op, s and t of one Gateway frame; the event carries both t and d of a dispatch. */
  datatype Frame = Frame(op: int, s: Option<nat>, event: Option<Event>)
}
