/** The root component: three state cells (the screen, the saved stories and
    the story being read), the persisted copy of the story list, and the
    handlers the child screens call. Every handler is an unconditional,
    sequential update of these cells. */
module AppComponent {
  import opened Types
  import opened StoryList

  class App {
    /** The screen shown; starts on the library. */
    var state: AppState
    /** The saved stories, newest first. */
    var stories: seq<Story>
    /** The story opened in the reader, if any (`null` in the source). */
    var active: Option<Story>
    /** The persisted story list under the storage key; `None` when the key
        is absent. */
    var slot: Option<seq<Story>>

    /** All four cells as one value. */
    function Current(): (s: Snapshot)
      reads this
    {
      Snapshot(state, stories, active, slot)
    }

    /** Whenever the reader screen is selected there is a story to show. */
    ghost predicate ReaderHasStory()
      reads this
    {
      state == READING ==> active.Some?
    }

    /** The persisted copy and the in-memory list agree: the slot holds the
        list, or nothing was ever written and the list is empty. */
    ghost predicate SlotAgrees()
      reads this
    {
      slot == Some(stories) || (slot == None && stories == [])
    }

    ghost predicate Valid()
      reads this
    {
      ReaderHasStory() && SlotAgrees()
    }

    /** The reader screen is rendered: READING is selected and a story is
        active. */
    predicate ReaderShown()
      reads this
    {
      state == READING && active.Some?
    }

    /** Mounting the component: library screen, no stories, no active story;
        `saved` is whatever the storage key already holds. */
    constructor (saved: Option<seq<Story>>)
      ensures Current() == Snapshot(LIBRARY, [], None, saved)
      ensures ReaderHasStory()
    {
      state := LIBRARY;
      stories := [];
      active := None;
      slot := saved;
    }

    /** The one-shot load effect: adopt the persisted list when there is one,
        otherwise keep the current list. */
    method Load()
      modifies this
      ensures stories == (if slot.Some? then slot.value else old(stories))
      ensures state == old(state) && active == old(active) && slot == old(slot)
      ensures SlotAgrees() <==> (slot.Some? || old(stories) == [])
      ensures ReaderHasStory() <==> old(ReaderHasStory())
    {
      if slot.Some? {
        stories := slot.value;
      }
    }

    /** Prepends `s` and writes the whole new list to storage. */
    method SaveStory(s: Story)
      modifies this
      ensures stories == Prepend(s, old(stories))
      ensures slot == Some(stories)
      ensures state == old(state) && active == old(active)
      ensures SlotAgrees()
      ensures ReaderHasStory() <==> old(ReaderHasStory())
    {
      var updated := Prepend(s, stories);
      stories := updated;
      slot := Some(updated);
    }

    /** Drops every story whose id is `id` and writes the whole new list to
        storage. */
    method DeleteStory(id: string)
      modifies this
      ensures stories == Without(old(stories), id)
      ensures slot == Some(stories)
      ensures state == old(state) && active == old(active)
      ensures SlotAgrees()
      ensures ReaderHasStory() <==> old(ReaderHasStory())
    {
      var updated := Without(stories, id);
      stories := updated;
      slot := Some(updated);
    }

    /** Switches to the generator screen from any screen; the active story is
        kept. */
    method HandleStartGenerate()
      modifies this
      ensures Current() == old(Current()).(state := GENERATING)
      ensures ReaderHasStory()
      ensures SlotAgrees() <==> old(SlotAgrees())
    {
      state := GENERATING;
    }

    /** A generated story arrives: it is saved like `SaveStory`, then opened in
        the reader. */
    method HandleStoryCreated(s: Story)
      modifies this
      ensures stories == Prepend(s, old(stories))
      ensures slot == Some(stories)
      ensures active == Some(s) && state == READING
      ensures Valid() && ReaderShown()
    {
      SaveStory(s);
      active := Some(s);
      state := READING;
    }

    /** Opens `s` in the reader; the list and the slot are untouched. */
    method HandleOpenStory(s: Story)
      modifies this
      ensures Current() == old(Current()).(state := READING, active := Some(s))
      ensures ReaderHasStory() && ReaderShown()
      ensures SlotAgrees() <==> old(SlotAgrees())
    {
      active := Some(s);
      state := READING;
    }

    /** Returns to the library from any screen and clears the active story;
        the list and the slot are untouched. */
    method HandleBackToLibrary()
      modifies this
      ensures Current() == old(Current()).(state := LIBRARY, active := None)
      ensures ReaderHasStory() && !ReaderShown()
      ensures SlotAgrees() <==> old(SlotAgrees())
    {
      state := LIBRARY;
      active := None;
    }
  }

  /** Whenever READING implies an active story, the READING tag alone decides
      whether the reader is rendered. */
  lemma ReadingMeansReaderShown(app: App)
    requires app.ReaderHasStory()
    ensures app.state == READING <==> app.ReaderShown()
  {
  }

  /** Process start: mount over the storage key's current content, then run
      the load effect. The invariant holds from then on. */
  method Startup(saved: Option<seq<Story>>) returns (app: App)
    ensures fresh(app) && app.Valid()
    ensures app.Current() == Snapshot(LIBRARY, if saved.Some? then saved.value else [], None, saved)
  {
    app := new App(saved);
    app.Load();
  }

  /** Persisted lists survive a restart: starting again over the slot of a
      running component yields the same list, on the library screen. */
  method Restart(app: App) returns (next: App)
    requires app.SlotAgrees()
    ensures fresh(next) && next.Valid()
    ensures next.Current() == Snapshot(LIBRARY, app.stories, None, app.slot)
  {
    next := Startup(app.slot);
  }

  /** Calling `HandleBackToLibrary` a second time changes nothing. */
  method BackToLibraryTwice(app: App) returns (once: Snapshot)
    modifies app
    ensures once == old(app.Current()).(state := LIBRARY, active := None)
    ensures app.Current() == once
  {
    app.HandleBackToLibrary();
    once := app.Current();
    app.HandleBackToLibrary();
  }

  /** The invariant holds in one direction only: from the reader, starting a
      new story selects GENERATING while the old story stays active. */
  method ActiveOutsideReader(s: Story) returns (snap: Snapshot)
    ensures snap.state == GENERATING && snap.active == Some(s)
  {
    var app := new App(None);
    app.HandleOpenStory(s);
    app.HandleStartGenerate();
    snap := app.Current();
  }

  /** The walk-through of an empty library: start generating, receive story
      `a`, go back, delete it. Returns the state after each step. */
  method EmptyLibraryWalkthrough(a: Story) returns (generating: Snapshot, reading: Snapshot, back: Snapshot, deleted: Snapshot)
    ensures generating == Snapshot(GENERATING, [], None, None)
    ensures reading == Snapshot(READING, [a], Some(a), Some([a]))
    ensures back == Snapshot(LIBRARY, [a], None, Some([a]))
    ensures deleted == Snapshot(LIBRARY, [], None, Some([]))
  {
    var app := Startup(None);
    app.HandleStartGenerate();
    generating := app.Current();
    app.HandleStoryCreated(a);
    reading := app.Current();
    app.HandleBackToLibrary();
    back := app.Current();
    app.DeleteStory(a.id);
    deleted := app.Current();
  }

  /** Saving the same story twice keeps both copies. */
  method SaveTwiceKeepsBoth(s: Story) returns (snap: Snapshot)
    ensures snap.stories == [s, s] && snap.slot == Some([s, s])
  {
    var app := Startup(None);
    app.SaveStory(s);
    app.SaveStory(s);
    snap := app.Current();
  }
}
