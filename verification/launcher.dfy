/** The launcher (start.js): it starts the server as a child process and
    watches the child's output. When a chunk of standard output carries the
    server's ready message, it opens the page in a browser, and it does so
    only once. When the child closes, it classifies the exit code. Spawning,
    the dynamic import of the browser opener and console output are
    outside the model; the events the child produces are inputs. */
module StartScript {
  import opened Wrappers
  import opened Text

  /** The text whose presence in a stdout chunk means the server is up (start.js:10). */
  const SuccessMessage: string := "SUCCESS: Backend server is running"

  /** What the child process can report: a chunk of standard output, a
      chunk of standard error, or a failure to spawn it at all. */
  datatype Event = Stdout(data: string) | Stderr(data: string) | SpawnError

  /** The three ways the launcher reports the child's exit. */
  datatype ExitReport = FailedToStart | StoppedUnexpectedly | Stopped

  /** A stdout chunk that itself holds the whole ready message. */
  predicate Announces(e: Event)
  {
    e.Stdout? && Includes(e.data, SuccessMessage)
  }

  /** Whether the browser has been opened after these events. */
  function Opened(events: seq<Event>): bool
    decreases |events|
  {
    if |events| == 0 then false
    else Opened(events[..|events| - 1]) || Announces(events[|events| - 1])
  }

  /** How many times the page has been opened after these events: one
      more whenever a chunk announces the server while the flag is still
      down. */
  function Launches(events: seq<Event>): nat
    decreases |events|
  {
    if |events| == 0 then 0
    else
      var before := events[..|events| - 1];
      Launches(before) + (if Announces(events[|events| - 1]) && !Opened(before) then 1 else 0)
  }

  /** The launcher's state: the `isBrowserOpened` flag, the number of
      times the page was opened, and (as ghost state) the events seen. */
  class Launcher {
    var isBrowserOpened: bool
    var launches: nat
    ghost var history: seq<Event>

    ghost predicate Valid()
      reads this
    {
      isBrowserOpened == Opened(history) && launches == Launches(history)
    }

    /** The state before the child has said anything (start.js:13). */
    constructor ()
      ensures Valid() && history == []
      ensures !isBrowserOpened && launches == 0
    {
      isBrowserOpened := false;
      launches := 0;
      history := [];
    }

    /** One event from the child (start.js:24-50, 66-69): a stdout chunk
        holding the ready message raises the flag and opens the page if the
        flag was down; anything else changes nothing. */
    method Handle(e: Event)
      requires Valid()
      modifies this
      ensures Valid() && history == old(history) + [e]
      ensures isBrowserOpened == (old(isBrowserOpened) || Announces(e))
      ensures launches == old(launches) + (if Announces(e) && !old(isBrowserOpened) then 1 else 0)
      ensures !e.Stdout? ==> isBrowserOpened == old(isBrowserOpened) && launches == old(launches)
    {
      if e.Stdout? {
        if Includes(e.data, SuccessMessage) && !isBrowserOpened {
          isBrowserOpened := true;
          launches := launches + 1;
        }
      }
      history := history + [e];
      assert history[..|history| - 1] == old(history);
    }

    /** The `close` handler (start.js:54-62). The code is null when the
        child was ended by a signal, and null is not 0. */
    method OnClose(code: Option<int>) returns (report: ExitReport)
      ensures code != Some(0) && !isBrowserOpened ==> report == FailedToStart
      ensures code != Some(0) && isBrowserOpened ==> report == StoppedUnexpectedly
      ensures code == Some(0) ==> report == Stopped
    {
      if code != Some(0) && !isBrowserOpened {
        report := FailedToStart;
      } else if code != Some(0) {
        report := StoppedUnexpectedly;
      } else {
        report := Stopped;
      }
    }
  }

  /** The page is opened at most once: exactly once if the flag is up,
      never otherwise. */
  lemma {:induction false} LaunchedOnceIffOpened(events: seq<Event>)
    ensures Launches(events) == if Opened(events) then 1 else 0
    decreases |events|
  {
    if |events| > 0 {
      LaunchedOnceIffOpened(events[..|events| - 1]);
    }
  }

  /** The flag is up exactly when some stdout chunk carried the whole
      ready message. */
  lemma {:induction false} OpenedIffSomeChunkAnnounces(events: seq<Event>)
    ensures Opened(events) <==> exists i :: 0 <= i < |events| && Announces(events[i])
    decreases |events|
  {
    if |events| > 0 {
      var before := events[..|events| - 1];
      OpenedIffSomeChunkAnnounces(before);
      if Opened(before) {
        var i :| 0 <= i < |before| && Announces(before[i]);
        assert events[i] == before[i];
      }
      if exists i :: 0 <= i < |events| && Announces(events[i]) {
        var i :| 0 <= i < |events| && Announces(events[i]);
        if i < |before| {
          assert before[i] == events[i];
        }
      }
    }
  }

  /** Once up, the flag never comes down, whatever follows. */
  lemma {:induction false} OpenedStaysOpened(events: seq<Event>, more: seq<Event>)
    requires Opened(events)
    ensures Opened(events + more)
    decreases |more|
  {
    if |more| > 0 {
      var all := events + more;
      OpenedStaysOpened(events, more[..|more| - 1]);
      assert all[..|all| - 1] == events + more[..|more| - 1];
    } else {
      assert events + more == events;
    }
  }

  /** The ready message split over two chunks is not noticed. */
  lemma SplitMessageNotDetected()
    ensures !Opened([Stdout("SUCCESS: Backend"), Stdout(" server is running")])
  {
    var events := [Stdout("SUCCESS: Backend"), Stdout(" server is running")];
    assert events[..1] == [Stdout("SUCCESS: Backend")];
    assert events[..1][..0] == [];
  }

  /** The line the server logs once it listens (server.js:82) carries the
      ready message, whatever the port. */
  lemma ServerReadyLineAnnounces(port: string)
    ensures Announces(Stdout("\n\U{1F389} SUCCESS: Backend server is running on port " + port))
  {
    var head := "\n\U{1F389} ";
    var lead := "\n\U{1F389} SUCCESS: Backend server is running on port ";
    assert lead == head + SuccessMessage + " on port ";
    var line := lead + port;
    assert line[|head|..|head| + |SuccessMessage|] == SuccessMessage;
    assert OccursAt(line, SuccessMessage, |head|);
    IncludesSpec(line, SuccessMessage);
  }
}
