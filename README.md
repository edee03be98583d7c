# Masal Diyarı root component — a verified model

Masal Diyarı is a single-page application: a personal library of generated
children's stories, a generator screen and a reader. All of its logic sits in
the root component `App`. The component has three state cells:

- the current screen (`LIBRARY`, `GENERATING` or `READING`);
- the saved stories, newest first;
- the story being read, or `null`.

It also keeps one browser-storage key, `masal-diyari-stories`, that holds the
whole story list. This project models that component in Dafny:

- `types.dfy` (module `Types`): the story record, the screen tag, an
  `Option` for `null` and for an absent storage key, and `Snapshot`, which
  holds the component's whole state as one value.
- `story_list.dfy` (module `StoryList`): the two pure list expressions the
  component uses. One prepends a story (`[newStory, ...stories]`). The other
  filters out an id (`stories.filter(s => s.id !== id)`). The module proves
  their order, membership and length facts, including an independent
  characterisation of the filter.
- `app.dfy` (module `AppComponent`): class `App`, whose fields are the three
  state cells and the storage slot. There is one method per handler and one
  for the load effect. Every handler has no precondition, as in the source.
  Each method states its whole new state and what happens to two
  invariants: the reader has a story (`state == READING ==> active.Some?`),
  and the slot agrees with memory. Client methods after the class show
  startup, a restart round trip, idempotence of going back, a run where the
  invariant's converse fails, and a full walk through an empty library.

The model follows the code as written. In particular:

- Saving does not check for duplicate ids.
- A failed storage write is not rolled back.
- A malformed stored payload is not recovered from.
- Events that are invalid for the current screen are not ignored.
- A story delivered after the generator was cancelled is still saved and
  opened.
- An active story does not imply `READING`: only the implication from
  `READING` to an active story holds.

## Model

| member | source | states |
|---|---|---|
| StoryList.Prepend | App.tsx:22 | the saved list has the new story at index 0, the previous list unchanged after it, length one more, members exactly the new story and the old ones |
| StoryList.Without | App.tsx:28 | the filtered list is no longer than the input and contains exactly the input's stories whose id differs from the deleted id |
| StoryList.WithoutIsSubsequence | App.tsx:28 | the filtered list keeps the surviving stories in their original relative order |
| StoryList.WithoutLength | App.tsx:28 | filtering removes exactly as many entries as carry the id, so every duplicate goes |
| StoryList.WithoutUnique | App.tsx:28 | any order-preserving sublist free of the id that drops nothing else equals the filtered list |
| StoryList.WithoutUnchangedIff | App.tsx:27-28 | deleting leaves the list unchanged if and only if no entry carries the id |
| StoryList.PrependAddsEntry | App.tsx:21-22 | saving a story whose id is already present yields one more entry with that id (no duplicate check) |
| StoryList.PrependThenWithout | App.tsx:21-30 | deleting the id of a just-saved story removes it together with every older entry with that id |
| AppComponent.App.constructor | App.tsx:10-12 | the component starts on the library with no stories and no active story, and the storage key keeps what it held |
| AppComponent.App.Load | App.tsx:14-19 | the load effect adopts the stored list when the key is present and otherwise keeps the list; afterwards the slot agrees with memory exactly when the key was present or the list was empty |
| AppComponent.App.SaveStory | App.tsx:21-25 | the list becomes the new story prepended to the old list, the slot holds exactly that list, and screen and active story are unchanged |
| AppComponent.App.DeleteStory | App.tsx:27-31 | the list becomes the old list without the id, the slot holds exactly that list, and screen and active story are unchanged |
| AppComponent.App.HandleStartGenerate | App.tsx:33-35 | from any screen the state becomes GENERATING and nothing else changes; the active story is not cleared |
| AppComponent.App.HandleStoryCreated | App.tsx:37-41 | the story is prepended and persisted as by saving, becomes active, the state becomes READING, and both invariants hold afterwards whatever held before |
| AppComponent.App.HandleOpenStory | App.tsx:43-46 | the state becomes READING with the story active; the list and the slot are unchanged |
| AppComponent.App.HandleBackToLibrary | App.tsx:48-51 | from any screen the state becomes LIBRARY with no active story; the list and the slot are unchanged |
| AppComponent.ReadingMeansReaderShown | App.tsx:78 | whenever READING implies an active story, the reader is rendered exactly when the state is READING |
| AppComponent.Startup | App.tsx:10-19 | mounting and loading yields the library screen over the stored list, or an empty one, with both invariants established |
| AppComponent.Restart | App.tsx:14-30 | a restart over a slot that agrees with memory restores the same story list |
| AppComponent.BackToLibraryTwice | App.tsx:48-51 | going back to the library twice gives the same state as going back once |
| AppComponent.ActiveOutsideReader | App.tsx:33-46 | the converse of the invariant fails: opening a story and then starting generation gives GENERATING with the story still active |
| AppComponent.EmptyLibraryWalkthrough | App.tsx:21-51 | from an empty library: generate, receive story a, go back and delete a, with the exact state after each step |
| AppComponent.SaveTwiceKeepsBoth | App.tsx:21-25 | saving the same story twice stores two copies, in memory and in the slot |

## Left out

- Rendering: the header, library, generator and reader screens and the
  footer (App.tsx:53-90). These are presentation. Only the reader's render
  condition (App.tsx:78) is modelled, as `ReaderShown`.
- Which buttons each screen shows: buttons are hidden while generating, and
  delete exists only on the library screen. The handlers do not check
  either, so the model puts no precondition on any handler.
- Story generation. It is an external asynchronous service, seen here only
  as the argument of `HandleStoryCreated`.
- JSON encoding and the browser storage API. The slot holds the list
  itself. The model assumes that encoding and decoding round-trip. A
  malformed payload (which would make the source throw while parsing) and a
  failed write are not modelled, because the source handles neither.
- The source's load test treats an empty string as absent. An encoded list
  is never empty, so that case is folded into an absent key.
- React's asynchronous, batched state updates and stale closures. Each
  handler is one atomic sequential update. In particular `SaveStory` reads
  the list as it is when it runs.
- Story fields other than `id`. The story type is defined elsewhere in the
  application and is not part of this model. `body` stands for those
  fields.
