/** Values the root component works with: the story record, the screen tag
    and an optional value standing for `null` and for a missing storage key. */
module Types {

  /** `Some(v)` or nothing; used for the active story (`null` in the source)
      and for the storage slot (an absent key). */
  datatype Option<+T> = None | Some(value: T)

  /** One generated story. Only `id` is ever inspected by the core; `body`
      stands for every other field of the record (title, text, settings),
      which the core stores and forwards unread. */
  datatype Story = Story(id: string, body: string)

  /** The screen the application shows. */
  datatype AppState = LIBRARY | GENERATING | READING

  /** The whole state of the root component at one instant: its three state
      cells and the persisted story list. */
  datatype Snapshot = Snapshot(
    state: AppState,
    stories: seq<Story>,
    active: Option<Story>,
    slot: Option<seq<Story>>)
}
