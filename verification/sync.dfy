/**
  The state record of the Mod-SMaRt view-change synchronizer.

  A `Synchronizer` holds the phase of the view-change protocol, a timeout
  sequence number and the view currently installed. Only the constructor,
  `install_view` and the `view` accessor carry behaviour; the protocol
  transitions themselves are not part of this model, so no operation here
  moves the phase. The view information is an opaque type parameter `V`.
 */
module Sync {
  import opened RustInts

  type TimeoutSeqNo = I32

  /** The protocol phase; the four counting variants carry the number of messages collected so far. */
  datatype ProtoPhase =
    | Init
    | WatchingTimeout
    | Watching2ndTimeout
    | Stopping(count: Usize)
    | Stopping2(count: Usize)
    | StoppingData(count: Usize)
    | Syncing(count: Usize)

  /** What processing an event reports back to the replica's main loop. */
  datatype SynchronizerStatus<V> =
    | Nil
    | Running
    | NewView(installed: V)

  datatype Synchronizer<V> = Synchronizer(phase: ProtoPhase, timeoutSeq: TimeoutSeqNo, view: V)

  /**
    Reads the installed view; the state is left as it was. Installing the
    view just read back reproduces the state, so the view is the one field
    the read exposes and nothing about the state is lost or altered by it.
   */
  function View<V>(s: Synchronizer<V>): (r: V)
    ensures InstallView(s, r) == s
  {
    s.view
  }

  /** A fresh synchronizer: idle, with timeout sequence number zero, watching the given view. */
  function New<V>(view: V): (s: Synchronizer<V>)
    ensures s.phase == Init
    ensures s.timeoutSeq == 0
    ensures View(s) == view
  {
    Synchronizer(Init, 0, view)
  }

  /** Installs a view; the phase is deliberately not reset, and the timeout sequence number is kept. */
  function InstallView<V>(s: Synchronizer<V>, view: V): (r: Synchronizer<V>)
    ensures r.view == view
    ensures r.phase == s.phase
    ensures r.timeoutSeq == s.timeoutSeq
  {
    s.(view := view)
  }

  /** Installing the same view a second time changes nothing. */
  lemma InstallViewIdempotent<V>(s: Synchronizer<V>, view: V)
    ensures InstallView(InstallView(s, view), view) == InstallView(s, view)
  {
  }

  /** Of two installations in a row only the later one is visible. */
  lemma InstallViewLastWins<V>(s: Synchronizer<V>, first: V, second: V)
    ensures InstallView(InstallView(s, first), second) == InstallView(s, second)
  {
  }

  /** Re-installing the view already installed is a no-op. */
  lemma InstallCurrentViewIsNoop<V>(s: Synchronizer<V>)
    ensures InstallView(s, View(s)) == s
  {
  }

  /** A fresh synchronizer with a view installed on top equals one created with that view. */
  lemma InstallOnFreshIsFresh<V>(first: V, second: V)
    ensures InstallView(New(first), second) == New(second)
  {
  }

  /** Whatever was installed before, the most recently installed view is the one read back. */
  lemma {:induction false} ViewAfterInstalls<V>(s: Synchronizer<V>, views: seq<V>)
    requires |views| > 0
    ensures View(InstallAll(s, views)) == views[|views| - 1]
    ensures InstallAll(s, views).phase == s.phase
    ensures InstallAll(s, views).timeoutSeq == s.timeoutSeq
    decreases |views|
  {
    if |views| > 1 {
      ViewAfterInstalls(s, views[..|views| - 1]);
    }
  }

  /** Installs the given views one after the other, first to last. */
  function InstallAll<V>(s: Synchronizer<V>, views: seq<V>): Synchronizer<V>
    decreases |views|
  {
    if |views| == 0 then s else InstallView(InstallAll(s, views[..|views| - 1]), views[|views| - 1])
  }
}
