/** The loosely typed data the YAML decoder hands to the manifest code:
    every manifest entry is a `map[string]interface{}`. */
module Raw {

  /** A decoded YAML value: a string, a list, or anything else (numbers,
      booleans, nested mappings). A null value is also read as `Other`;
      the Go code panics on a null `tags` value, which this model does not
      capture. */
  datatype Value = Str(s: string) | List(items: seq<Value>) | Other

  /** One project or patch entry of the manifest. */
  type Entry = map<string, Value>

  /** Go's `v, _ := mp[key].(string)`: the string stored under `key`, or the
      empty string when the key is missing or holds something else. */
  function StrField(mp: Entry, key: string): string
  {
    if key in mp && mp[key].Str? then mp[key].s else ""
  }

  /** The entry's tag list carries the string `tag`. A non-null tags value
      that is not a list carries no tags. */
  predicate HasTag(mp: Entry, tag: string)
  {
    "tags" in mp && mp["tags"].List? && Str(tag) in mp["tags"].items
  }
}
