/** Sets of keys by tag. */
module TagSets {
  type Tags = map<string, set<string>>

  function KeysUnder(tags: Tags, tag: string): set<string> {
    if tag in tags then tags[tag] else {}
  }
}
