// Warnings: a ring of those still to be popped up, a ring of the last
// thousand for the history view, and the popup that rises, rests and sinks.
module PopupQueue {
  import opened Options
  import opened TextLines

  const MAX_WARNING := 1000
  const MAX_OFFSET := 70
  const MAX_STOPPED := 15

  datatype Warning = Warning(text: string, flagged: bool)

  // ---- rings

  // The ring slot of the i-th warning ever inserted.
  function Slot(i: nat): (j: nat)
    ensures j < MAX_WARNING
  {
    i % MAX_WARNING
  }

  lemma SlotNext(i: nat)
    ensures Slot(i + 1) == if Slot(i) + 1 == MAX_WARNING then 0 else Slot(i) + 1
  {
  }

  // Within one turn of a ring, a slot stands for one number.
  lemma SameSlot(a: nat, b: nat)
    requires a < b <= a + MAX_WARNING
    ensures Slot(a) == Slot(b) <==> b == a + MAX_WARNING
  {
  }

  // The ring holds the items of h from number lo on.
  ghost predicate Holds<T>(ring: seq<T>, h: seq<T>, lo: nat) {
    && |ring| == MAX_WARNING
    && lo <= |h| <= lo + MAX_WARNING
    && forall i {:trigger h[i]} :: lo <= i < |h| ==> ring[Slot(i)] == h[i]
  }

  // Writing the next slot appends to the items held; the oldest one goes when
  // the ring was full.
  lemma HoldsPush<T>(ring: seq<T>, h: seq<T>, lo: nat, x: T)
    requires Holds(ring, h, lo)
    ensures Holds(ring[Slot(|h|) := x], h + [x], if |h| < lo + MAX_WARNING then lo else lo + 1)
  {
    hide Slot;
    var n := |h|;
    var h' := h + [x];
    var lo' := if n < lo + MAX_WARNING then lo else lo + 1;
    forall i {:trigger h'[i]} | lo' <= i < |h'|
      ensures ring[Slot(n) := x][Slot(i)] == h'[i]
    {
      if i < n {
        SameSlot(i, n);
        assert h'[i] == h[i];
      }
    }
  }

  // From slot n on, the ring was never written.
  ghost predicate Untouched<T>(ring: seq<Option<T>>, n: nat) {
    forall j :: n <= j < |ring| ==> ring[j].None?
  }

  // ---- what the rings hold

  ghost function Texts(h: seq<Warning>): seq<string> {
    seq(|h|, i requires 0 <= i < |h| => h[i].text)
  }

  ghost function Flags(h: seq<Warning>): seq<bool> {
    seq(|h|, i requires 0 <= i < |h| => h[i].flagged)
  }

  ghost function Lines(h: seq<Warning>): seq<string> {
    seq(|h|, i requires 0 <= i < |h| => h[i].text + "\n")
  }

  ghost function Kept(h: seq<Warning>): seq<Option<string>> {
    seq(|h|, i requires 0 <= i < |h| => Some(h[i].text + "\n"))
  }

  lemma Snoc(h: seq<Warning>, w: Warning)
    ensures Texts(h + [w]) == Texts(h) + [w.text]
    ensures Flags(h + [w]) == Flags(h) + [w.flagged]
    ensures Lines(h + [w]) == Lines(h) + [w.text + "\n"]
    ensures Kept(h + [w]) == Kept(h) + [Some(w.text + "\n")]
  {
  }

  // What is meant to be kept: a newline is added when there is none.
  function IntendedLine(text: string): string {
    if EndsInNewline(text) then text else text + "\n"
  }

  predicate EndsInNewline(text: string) {
    text != "" && text[|text| - 1] == '\n'
  }

  ghost function IntendedLines(h: seq<Warning>): seq<string> {
    seq(|h|, i requires 0 <= i < |h| => IntendedLine(h[i].text))
  }

  // The lines kept are the intended ones if and only if no text ends in a
  // newline.
  lemma LinesIntended(h: seq<Warning>)
    ensures Lines(h) == IntendedLines(h) <==> forall i :: 0 <= i < |h| ==> !EndsInNewline(h[i].text)
  {
    forall i | 0 <= i < |h|
      ensures Lines(h)[i] == IntendedLines(h)[i] <==> !EndsInNewline(h[i].text)
    {
      assert |Lines(h)[i]| == |h[i].text| + 1;
    }
  }

  function EndingInNewline(h: seq<Warning>): nat {
    if h == [] then 0 else (if EndsInNewline(h[0].text) then 1 else 0) + EndingInNewline(h[1..])
  }

  // Each such text costs the window one more of its lines than intended.
  lemma {:induction false} BlankLines(h: seq<Warning>)
    ensures Newlines(Concat(Lines(h))) == Newlines(Concat(IntendedLines(h))) + EndingInNewline(h)
  {
    hide Newlines;
    if h == [] {
      assert Lines(h) == IntendedLines(h);
    } else {
      var a, b := Lines(h), IntendedLines(h);
      assert a[1..] == Lines(h[1..]) && b[1..] == IntendedLines(h[1..]);
      BlankLines(h[1..]);
      NewlinesPlus(a[0], Concat(a[1..]));
      NewlinesPlus(b[0], Concat(b[1..]));
      NewlinesPlus(h[0].text, "\n");
      OneNewline();
    }
  }

  lemma OneNewline()
    ensures Newlines("\n") == 1
  {
  }

  // Warnings that end once, with their own newline, take two lines each: all
  // of them are shown if and only if there are less than 500.
  lemma DoubledLines(h: seq<Warning>)
    requires forall i :: 0 <= i < |h| ==> EndsOnce(h[i].text)
    ensures Newlines(Concat(Lines(h))) == 2 * |h|
    ensures Shown(h) == Concat(Lines(h)) <==> |h| < 500
  {
    hide Newlines, Concat, Shown;
    BlankLines(h);
    AllEnding(h);
    NewlinesOfLines(IntendedLines(h));
    ShownWhole(h);
  }

  lemma {:induction false} AllEnding(h: seq<Warning>)
    requires forall i :: 0 <= i < |h| ==> EndsOnce(h[i].text)
    ensures EndingInNewline(h) == |h| && AllEndOnce(IntendedLines(h))
  {
    hide Newlines;
    if h != [] {
      AllEnding(h[1..]);
    }
  }

  // A warning with its own newline shows an empty line behind it.
  lemma BlankLineShown(w: Warning)
    requires w == Warning("w\n", false)
    ensures IntendedLine(w.text) == "w\n" && Shown([w]) == "w\n\n"
  {
    assert EndsOnce("w\n");
    DoubledLines([w]);
    assert Lines([w]) == ["w\n" + "\n"];
    assert Concat(["w\n\n"]) == "w\n\n" + Concat([]);
  }

  // What the history window shows after these warnings were appended to it.
  ghost function Shown(h: seq<Warning>): string {
    Trimmed(Concat(Lines(h)))
  }

  lemma ShownSnoc(h: seq<Warning>, w: Warning)
    ensures Shown(h + [w]) == Trimmed(Shown(h) + (w.text + "\n"))
  {
    hide Trimmed, Concat, Lines;
    Snoc(h, w);
    ConcatSnoc(Lines(h), w.text + "\n");
    TrimOnce(Concat(Lines(h)), w.text + "\n");
  }

  lemma ShownNone()
    ensures Shown([]) == ""
  {
  }

  // Warnings of one line each.
  ghost predicate OneLine(h: seq<Warning>) {
    forall i :: 0 <= i < |h| ==> '\n' !in h[i].text && '\r' !in h[i].text && '\U{2029}' !in h[i].text
  }

  lemma OneLineEnds(h: seq<Warning>)
    requires OneLine(h)
    ensures AllEndOnce(Lines(h))
  {
    forall i | 0 <= i < |h|
      ensures EndsOnce(Lines(h)[i])
    {
      NoNewlines(h[i].text);
      NewlinesPlus(h[i].text, "\n");
    }
  }

  // Of warnings of one line each the window shows the last 999, oldest first.
  lemma ShownLast(h: seq<Warning>)
    requires OneLine(h)
    ensures Shown(h) == Concat(Lines(h[if |h| < 1000 then 0 else |h| - 999..]))
  {
    hide Trimmed, Concat;
    OneLineEnds(h);
    TrimmedLines(Lines(h));
    var k := if |h| < MAX_WARNING then 0 else |h| - (MAX_WARNING - 1);
    assert Lines(h[k..]) == Lines(h)[k..];
  }

  // It shows all of any warnings if and only if these have less than a
  // thousand line ends.
  lemma ShownWhole(h: seq<Warning>)
    ensures Shown(h) == Concat(Lines(h)) <==> Newlines(Concat(Lines(h))) < 1000
  {
    TrimmedWhole(Concat(Lines(h)));
  }

  // So the last min(n, 1000) of n warnings of one line each are listed if and
  // only if n is less than a thousand.
  lemma HistoryListed(h: seq<Warning>)
    requires OneLine(h)
    ensures var last := h[if |h| < 1000 then 0 else |h| - 1000..]; Shown(last) == Concat(Lines(last)) <==> |h| < 1000
  {
    hide Trimmed, Concat, Newlines, Shown;
    var last := h[Oldest(|h|)..];
    OneLineEnds(last);
    NewlinesOfLines(Lines(last));
    ShownWhole(last);
  }

  // A thousand warnings: the first one is not listed.
  lemma ThousandWarnings(w: Warning)
    requires w == Warning("w", false)
    ensures var h := seq(1000, _ => w);
            && Shown(h[Oldest(|h|)..]) != Concat(Lines(h))
            && Shown(h[Oldest(|h|)..]) == Concat(Lines(h[1..]))
  {
    hide Trimmed, Concat, Shown, Lines;
    var h := seq(MAX_WARNING, _ => w);
    assert h[Oldest(|h|)..] == h;
    HistoryListed(h);
    ShownLast(h);
  }

  // The flagged warnings, in order.
  ghost function Flagged(s: seq<Warning>): seq<Warning> {
    if s == [] then []
    else if s[0].flagged then [s[0]] + Flagged(s[1..])
    else Flagged(s[1..])
  }

  lemma {:induction false} FlaggedPlus(a: seq<Warning>, b: seq<Warning>)
    ensures Flagged(a + b) == Flagged(a) + Flagged(b)
  {
    if a == [] {
      assert a + b == b;
    } else {
      assert (a + b)[1..] == a[1..] + b;
      FlaggedPlus(a[1..], b);
    }
  }

  // One warning passes from the pending ones to the passed ones.
  lemma PassOne(h: seq<Warning>, since: nat, n: nat)
    requires since <= n < |h|
    ensures Flagged(h[since..n + 1]) == Flagged(h[since..n]) + (if h[n].flagged then [h[n]] else [])
    ensures Flagged(h[n..]) == (if h[n].flagged then [h[n]] else []) + Flagged(h[n + 1..])
  {
    assert h[since..n + 1] == h[since..n] + [h[n]];
    FlaggedPlus(h[since..n], [h[n]]);
    assert h[n..][1..] == h[n + 1..];
  }

  lemma FlaggedSnoc(h: seq<Warning>, next: nat, w: Warning)
    requires next <= |h|
    ensures Flagged((h + [w])[next..]) == Flagged(h[next..]) + Flagged([w])
  {
    assert (h + [w])[next..] == h[next..] + [w];
    FlaggedPlus(h[next..], [w]);
  }

  // The first number whose line the history ring still holds.
  function Oldest(n: nat): (k: nat)
    ensures k <= n
  {
    if n < MAX_WARNING then 0 else n - MAX_WARNING
  }

  lemma OldestIs(n: nat)
    ensures Oldest(n) == if n < 1000 then 0 else n - 1000
  {
  }

  // Slot n + k of the history ring, k steps into a full turn from the write
  // position: empty, or the line of warning n + k - 1000.
  lemma TurnSlot(ring: seq<Option<string>>, h: seq<Warning>, k: nat)
    requires Holds(ring, Kept(h), Oldest(|h|)) && k < MAX_WARNING
    requires Untouched(ring, |h|)
    ensures ring[Slot(|h| + k)] ==
            if |h| + k < MAX_WARNING then None else Some(h[|h| + k - MAX_WARNING].text + "\n")
  {
    if |h| + k >= MAX_WARNING {
      SameSlot(|h| + k - MAX_WARNING, |h| + k);
      var i := |h| + k - MAX_WARNING;
      assert Kept(h)[i] == Some(h[i].text + "\n");
    }
  }

  // ---- the popup

  datatype Act = Tick | Insert(text: string, flagged: bool)

  function TickCount(acts: seq<Act>): nat {
    if acts == [] then 0 else TickCount(acts[..|acts| - 1]) + if acts[|acts| - 1].Tick? then 1 else 0
  }

  function Inserted(acts: seq<Act>): seq<Warning> {
    if acts == [] then []
    else
      Inserted(acts[..|acts| - 1]) + InsertedBy(acts[|acts| - 1])
  }

  function InsertedBy(a: Act): seq<Warning> {
    if a.Insert? then [Warning(a.text, a.flagged)] else []
  }

  lemma ActsSnoc(acts: seq<Act>, i: nat)
    requires i < |acts|
    ensures TickCount(acts[..i + 1]) == TickCount(acts[..i]) + if acts[i].Tick? then 1 else 0
    ensures Inserted(acts[..i + 1]) == Inserted(acts[..i]) + InsertedBy(acts[i])
  {
    assert acts[..i + 1][..i] == acts[..i];
  }

  lemma NoActs()
    ensures TickCount([]) == 0 && Inserted([]) == [] && Flagged([]) == []
  {
  }

  lemma {:induction false} InsertedPrefix(acts: seq<Act>, i: nat)
    requires i <= |acts|
    ensures |Inserted(acts[..i])| <= |Inserted(acts)|
    decreases |acts|
  {
    if i < |acts| {
      InsertedPrefix(acts[..|acts| - 1], i);
      assert acts[..|acts| - 1][..i] == acts[..i];
    } else {
      assert acts[..i] == acts;
    }
  }

  // The ticks before the j-th flagged warning waiting pops up, when the open
  // popup has left ticks to go.
  function DueAfter(left: int, j: nat): int {
    left + (POPUP_TICKS + 1) * j
  }

  // Ticks from the opening of a popup to its end.
  const POPUP_TICKS := 32

  class Popup {
    var stQueue: array<Option<string>>
    var stQueueWrite: nat
    var queue: array<string>
    var mustPopup: array<bool>
    var queueRead: nat
    var queueWrite: nat
    var popupState: int
    var offsetY: int
    var stopped: int
    var viewOpen: bool                  // the history window is open
    var view: string                    // the text it shows
    ghost var history: seq<Warning>     // every warning inserted so far
    ghost var next: nat                 // the first one still pending
    ghost var shown: seq<Warning>       // those that popped up
    ghost var since: nat                // where the last opening of the view put the reader
    ghost var shownBefore: seq<Warning> // those that popped up before it
    ghost var viewFrom: nat             // the first warning appended to the open window

    ghost predicate Shape()
      reads `stQueue, `queue, `mustPopup
    {
      && stQueue.Length == queue.Length == mustPopup.Length == MAX_WARNING
      && stQueue as object != queue && stQueue as object != mustPopup && queue as object != mustPopup
    }

    // The ring of the last thousand lines.
    ghost predicate Stored()
      reads `stQueue, `queue, `mustPopup, `history, stQueue
    {
      && Shape()
      && Holds(stQueue[..], Kept(history), Oldest(|history|))
      && Untouched(stQueue[..], |history|)
    }

    // Both write positions are the same; the rings hold the end of history.
    ghost predicate Rings()
      reads `stQueue, `queue, `mustPopup, `stQueueWrite, `queueWrite, `queueRead, `history, `next
      reads stQueue, queue, mustPopup
    {
      && Shape()
      && queueWrite == stQueueWrite == Slot(|history|)
      && queueRead == Slot(next) && next <= |history| < next + MAX_WARNING
      && Holds(queue[..], Texts(history), next)
      && Holds(mustPopup[..], Flags(history), next)
      && Stored()
    }

    // Since the view last emptied the pending ring, exactly the flagged
    // warnings popped up, in order; the open window shows what its trimming
    // leaves of those appended to it.
    ghost predicate Seen()
      reads `history, `next, `shown, `since, `shownBefore, `viewOpen, `view, `viewFrom
    {
      && since <= next <= |history|
      && shown == shownBefore + Flagged(history[since..next])
      && (viewOpen ==> viewFrom <= |history| && view == Shown(history[viewFrom..]))
    }

    // The positions of the popup that occur.
    predicate Moving()
      reads `popupState, `offsetY, `stopped
    {
      && offsetY % 10 == 0
      && (popupState == 0
          || (popupState == 1 && 0 <= offsetY <= MAX_OFFSET)
          || (popupState == 2 && offsetY == MAX_OFFSET + 10 && 0 <= stopped <= MAX_STOPPED)
          || (popupState == 3 && 0 < offsetY <= MAX_OFFSET + 10))
    }

    ghost predicate Valid()
      reads this, stQueue, queue, mustPopup
    {
      Rings() && Seen() && Moving() && next <= |history|
    }

    // The ticks left until the popup is closed.
    function Left(): int
      reads `popupState, `offsetY, `stopped
    {
      if popupState == 1 then (MAX_OFFSET + 10 - offsetY) / 10 + (MAX_STOPPED + 1) + (MAX_OFFSET + 10) / 10
      else if popupState == 2 then (MAX_STOPPED + 1 - stopped) + (MAX_OFFSET + 10) / 10
      else if popupState == 3 then offsetY / 10
      else 0
    }

    ghost function ToShow(): seq<Warning>
      requires next <= |history|
      reads `history, `next
    {
      Flagged(history[next..])
    }

    // The ticks until every flagged warning pending now was shown and closed.
    ghost function Debt(): int
      requires next <= |history|
      reads `popupState, `offsetY, `stopped, `history, `next
    {
      Left() + (POPUP_TICKS + 1) * |ToShow()|
    }

    constructor ()
      ensures Valid() && history == [] && next == since == 0 && shown == shownBefore == []
      ensures !viewOpen && popupState == 0
      ensures fresh(stQueue) && fresh(queue) && fresh(mustPopup)
    {
      stQueue := new Option<string>[MAX_WARNING](_ => None);
      queue := new string[MAX_WARNING](_ => "");
      mustPopup := new bool[MAX_WARNING](_ => false);
      stQueueWrite, queueRead, queueWrite := 0, 0, 0;
      popupState, offsetY, stopped := 0, 0, 0;
      viewOpen, view := false, "";
      history, next, shown, since, shownBefore, viewFrom := [], 0, [], 0, [], 0;
    }

    // The pending half of insert_next_warning.
    method WritePending(text: string, flagged: bool)
      requires Rings()
      modifies `queueWrite, queue, mustPopup
      ensures queue[..] == old(queue[..])[old(queueWrite) := text]
      ensures mustPopup[..] == old(mustPopup[..])[old(queueWrite) := flagged]
      ensures queueWrite == Slot(|history| + 1)
    {
      hide Holds, Slot;
      queue[queueWrite] := text;
      mustPopup[queueWrite] := flagged;
      SlotNext(|history|);
      queueWrite := queueWrite + 1;
      if queueWrite == MAX_WARNING {
        queueWrite := 0;
      }
    }

    // trace_textview_scroll_to_bottom, its text
    method ScrollToBottom(txt: string)
      modifies `view
      ensures view == if viewOpen then Trimmed(old(view) + txt) else old(view)
    {
      if viewOpen {
        view := view + txt;
        var nbLine := LineCount(view);
        if nbLine > NB_LINES_IN_SCROLL {
          view := FromLine(view, nbLine - NB_LINES_IN_SCROLL);
        }
      }
    }

    // What an open window shows of warnings of one line each.
    lemma ViewShows()
      requires Valid() && viewOpen && OneLine(history[viewFrom..])
      ensures var n := |history|;
              view == Concat(Lines(history[if n - viewFrom < 1000 then viewFrom else n - 999..]))
    {
      hide Rings, Shown, Concat, Lines;
      var h := history[viewFrom..];
      ShownLast(h);
      var k := if |h| < MAX_WARNING then 0 else |h| - (MAX_WARNING - 1);
      assert h[k..] == history[viewFrom + k..];
    }

    // The history half of insert_next_warning.
    method WriteHistory(line: string)
      requires Shape() && stQueueWrite == Slot(|history|)
      modifies `stQueueWrite, `view, stQueue
      ensures stQueue[..] == old(stQueue[..])[old(stQueueWrite) := Some(line)]
      ensures stQueueWrite == Slot(|history| + 1)
      ensures view == if viewOpen then Trimmed(old(view) + line) else old(view)
    {
      hide Slot, Trimmed;
      stQueue[stQueueWrite] := Some(line);
      ScrollToBottom(line);
      SlotNext(|history|);
      stQueueWrite := stQueueWrite + 1;
      if stQueueWrite == MAX_WARNING {
        stQueueWrite := 0;
      }
    }

    // insert_next_warning.  alive: false when the pending ring was full and
    // the program ends.
    method InsertNextWarning(text: string, flagged: bool) returns (alive: bool)
      requires Valid()
      modifies this, stQueue, queue, mustPopup
      ensures alive <==> |old(history)| - old(next) < 999
      ensures alive ==> Valid() && history == old(history) + [Warning(text, flagged)] && next == old(next)
      ensures alive && viewOpen ==> view == Trimmed(old(view) + (text + "\n"))
      ensures stQueue == old(stQueue) && queue == old(queue) && mustPopup == old(mustPopup)
      ensures shown == old(shown) && viewOpen == old(viewOpen)
      ensures popupState == old(popupState) && offsetY == old(offsetY) && stopped == old(stopped)
    {
      hide Holds, Slot, Texts, Flags, Kept, Lines, Flagged, Untouched, Shown, Trimmed, Concat;
      ghost var n := |history|;
      ghost var w := Warning(text, flagged);
      ghost var ring0, flags0, kept0 := queue[..], mustPopup[..], stQueue[..];
      WritePending(text, flagged);
      SameSlot(next, n + 1);
      if queueRead == queueWrite {
        return false;
      }
      WriteHistory(text + "\n");
      InsertedRings(ring0, flags0, kept0, history, next, w);
      InsertedSeen(history, since, next, viewFrom, w);
      history := history + [w];
      alive := true;
      assert Rings();
      assert Seen();
    }

    // One turn of the loop in extract_next_warning.
    method PassNext() returns (result: Option<string>)
      requires Rings() && Seen() && queueRead != queueWrite
      modifies `queueRead, `next, `shown
      ensures Rings() && Seen() && next == old(next) + 1 <= |history|
      ensures history[old(next)].flagged ==>
                && result == Some(history[old(next)].text)
                && old(ToShow()) == [history[old(next)]] + ToShow()
                && shown == old(shown) + [history[old(next)]]
      ensures !history[old(next)].flagged ==>
                result == None && old(ToShow()) == ToShow() && shown == old(shown)
    {
      hide Holds, Slot, Texts, Flags, Kept, Lines, Flagged, Untouched, Shown;
      PassOne(history, since, next);
      RingRead(queue[..], mustPopup[..], history, next);
      result := None;
      if mustPopup[queueRead] {
        result := Some(queue[queueRead]);
        shown := shown + [history[next]];
      }
      SlotNext(next);
      queueRead := queueRead + 1;
      if queueRead == MAX_WARNING {
        queueRead := 0;
      }
      next := next + 1;
    }

    // extract_next_warning: the first flagged pending warning; what precedes
    // it is passed over.
    method ExtractNextWarning() returns (result: Option<string>)
      requires Valid()
      modifies `queueRead, `next, `shown
      ensures Valid() && old(next) <= next
      ensures old(ToShow()) == [] ==> result == None && ToShow() == [] && shown == old(shown)
      ensures old(ToShow()) != [] ==>
                && result == Some(old(ToShow())[0].text) && ToShow() == old(ToShow())[1..]
                && shown == old(shown) + [old(ToShow())[0]]
    {
      hide Holds, Slot, Texts, Flags, Kept, Lines, Flagged, Untouched, Shown;
      result := None;
      while queueRead != queueWrite
        invariant Rings() && Seen() && old(next) <= next && result == None && shown == old(shown)
        invariant ToShow() == old(ToShow())
        decreases |history| - next
      {
        result := PassNext();
        if result.Some? {
          break;
        }
      }
      if result.None? {
        if next < |history| { SameSlot(next, |history|); }
        NoneFlagged(history);
      }
    }

    // popup_timeout.  A busy popup comes one tick nearer to its end; an idle
    // one shows the next flagged warning, if any, for 32 ticks.
    method PopupTimeout()
      requires Valid()
      modifies `queueRead, `next, `shown, `popupState, `offsetY, `stopped
      ensures Valid() && old(next) <= next
      ensures old(popupState) != 0 ==>
                next == old(next) && shown == old(shown) && Left() == old(Left()) - 1
      ensures old(popupState) == 0 && old(ToShow()) != [] ==>
                && Left() == POPUP_TICKS == 32 && ToShow() == old(ToShow())[1..]
                && shown == old(shown) + [old(ToShow())[0]]
      ensures old(popupState) == 0 && old(ToShow()) == [] ==>
                Left() == 0 && ToShow() == [] && shown == old(shown)
      ensures popupState == 0 <==> Left() == 0
    {
      hide Rings, Seen, Flagged;
      if popupState == 0 {
        var txt := ExtractNextWarning();
        if txt.Some? {
          offsetY := 0;
          popupState := 1;
        }
      } else if popupState == 1 {
        offsetY := offsetY + 10;
        if offsetY > MAX_OFFSET {
          popupState := 2;
          stopped := 0;
        }
      } else if popupState == 2 {
        stopped := stopped + 1;
        if stopped > MAX_STOPPED {
          popupState := 3;
        }
      } else if popupState == 3 {
        offsetY := offsetY - 10;
        if offsetY == 0 {
          popupState := 0;
        }
      }
    }

    // Any number of ticks: each one pays one tick of the debt, and what pops
    // up is taken in order from what was to be shown.
    method Ticks(n: nat)
      requires Valid()
      modifies `queueRead, `next, `shown, `popupState, `offsetY, `stopped
      ensures Valid()
      ensures Debt() == if n < old(Debt()) then old(Debt()) - n else 0
      ensures shown + ToShow() == old(shown) + old(ToShow())
      ensures old(Debt()) <= n ==> popupState == 0 && ToShow() == [] && shown == old(shown) + old(ToShow())
    {
      hide Rings, Seen, Flagged;
      var i := 0;
      while i < n
        invariant i <= n && Valid()
        invariant Debt() == if i < old(Debt()) then old(Debt()) - i else 0
        invariant shown + ToShow() == old(shown) + old(ToShow())
      {
        PopupTimeout();
        i := i + 1;
      }
    }

    // The popup's work on the warnings to be shown at the start, before them
    // all popped up: every tick took one unit off.
    ghost predicate OnTime(shown0: nat, total0: nat, left0: int, ticks: nat)
      reads `popupState, `offsetY, `stopped, `shown
    {
      |shown| < total0 ==> Left() - (POPUP_TICKS + 1) * |shown| + ticks <= left0 - (POPUP_TICKS + 1) * shown0
    }

    lemma LeftOk()
      requires Moving()
      ensures Left() >= 0
    {
    }

    // One tick or one insertion.
    method Step(a: Act) returns (alive: bool)
      requires Valid()
      modifies this, stQueue, queue, mustPopup
      ensures stQueue == old(stQueue) && queue == old(queue) && mustPopup == old(mustPopup)
      ensures a.Insert? ==> (alive <==> |old(history)| - old(next) < 999)
      ensures a.Tick? ==> alive
      ensures alive ==> |history| - next <= old(|history| - next) + |InsertedBy(a)| && |old(shown)| <= |shown|
      ensures alive ==> Valid() && shown + ToShow() == old(shown + ToShow()) + Flagged(InsertedBy(a))
      ensures alive && |shown| < |old(shown + ToShow())| ==>
                Left() - (POPUP_TICKS + 1) * |shown| <=
                old(Left() - (POPUP_TICKS + 1) * |shown|) - (if a.Tick? then 1 else 0)
    {
      hide Rings, Seen, Flagged;
      alive := true;
      match a {
        case Tick =>
          ghost var waiting := ToShow();
          ghost var before := shown;
          PopupTimeout();
          if waiting != [] { assert (before + [waiting[0]]) + waiting[1..] == before + waiting; }
          NoneFlagged([]);
        case Insert(text, flagged) =>
          FlaggedSnoc(history, next, Warning(text, flagged));
          alive := InsertNextWarning(text, flagged);
      }
    }

    // Ticks with insertions in between.  Nothing is lost or shown twice, and
    // later warnings do not delay an earlier one.
    method Run(acts: seq<Act>) returns (alive: bool)
      requires Valid()
      modifies this, stQueue, queue, mustPopup
      ensures stQueue == old(stQueue) && queue == old(queue) && mustPopup == old(mustPopup)
      ensures alive ==> Valid() && shown + ToShow() == old(shown + ToShow()) + Flagged(Inserted(acts))
      ensures |old(history)| - old(next) + |Inserted(acts)| < 1000 ==> alive
      ensures alive ==> forall j | 0 <= j < |old(ToShow())| ::
                          DueAfter(old(Left()), j) < TickCount(acts) ==> |old(shown)| + j < |shown|
    {
      hide Rings, Seen, Flagged, Moving, Left, TickCount, Inserted;
      ghost var before := shown + ToShow();
      ghost var shown0, left0 := |shown|, Left();
      alive := true;
      var i := 0;
      assert acts[..0] == [];
      NoActs();
      while i < |acts|
        invariant i <= |acts| && Valid()
        invariant stQueue == old(stQueue) && queue == old(queue) && mustPopup == old(mustPopup)
        invariant shown + ToShow() == before + Flagged(Inserted(acts[..i]))
        invariant alive && |history| - next <= old(|history| - next) + |Inserted(acts[..i])|
        invariant OnTime(shown0, |before|, left0, TickCount(acts[..i]))
      {
        ActsSnoc(acts, i);
        FlaggedPlus(Inserted(acts[..i]), InsertedBy(acts[i]));
        alive := Step(acts[i]);
        if !alive {
          InsertedPrefix(acts, i + 1);
          return;
        }
        i := i + 1;
      }
      assert acts[..i] == acts;
      LeftOk();
      assert |before| == |old(shown)| + |old(ToShow())|;
    }

    // What the k-th turn of the loop below appends.
    ghost function Turned(k: nat): seq<Warning>
      requires k <= MAX_WARNING
      reads `history
    {
      var n, lo := |history|, Oldest(|history|);
      history[lo..if n + k < MAX_WARNING then lo else n + k - MAX_WARNING]
    }

    // One turn of the loop in trace_textview_fill_it_up.
    method ListOne(ghost k: nat)
      requires Stored() && viewOpen && k < MAX_WARNING && queueRead == Slot(|history| + k)
      requires view == Shown(Turned(k))
      modifies `view
      ensures view == Shown(Turned(k + 1))
    {
      hide Holds, Slot, Texts, Flags, Kept, Untouched, Lines, Shown, Trimmed;
      ghost var n, lo := |history|, Oldest(|history|);
      TurnSlot(stQueue[..], history, k);
      if stQueue[queueRead].Some? {
        ghost var i := n + k - MAX_WARNING;
        assert Turned(k + 1) == Turned(k) + [history[i]];
        ShownSnoc(Turned(k), history[i]);
        ScrollToBottom(stQueue[queueRead].value);
      }
    }

    // trace_textview_fill_it_up, in an empty window: the reader ends at the
    // write position.
    method ListLines()
      requires Rings() && viewOpen && view == ""
      modifies `queueRead, `view
      ensures queueRead == stQueueWrite
      ensures view == Shown(history[Oldest(|history|)..])
    {
      hide Holds, Slot, Texts, Flags, Kept, Untouched, Lines, Shown, Trimmed;
      ghost var n := |history|;
      ghost var k := 0;
      queueRead := stQueueWrite;
      assert Turned(0) == [];
      ShownNone();
      var again := true;
      while again
        invariant k <= MAX_WARNING && queueRead == Slot(n + k)
        invariant again <==> k < MAX_WARNING
        invariant view == Shown(Turned(k))
        decreases MAX_WARNING - k
      {
        ListOne(k);
        SlotNext(n + k);
        queueRead := queueRead + 1;
        if queueRead == MAX_WARNING {
          queueRead := 0;
        }
        k := k + 1;
        SameSlot(n, n + k);
        again := queueRead != stQueueWrite;
      }
      SameSlot(n, n + MAX_WARNING);
      assert Turned(k) == history[Oldest(n)..];
    }

    // trace_textview_fill_it_up: nothing is pending any more.
    method FillItUp()
      requires Rings() && viewOpen && view == ""
      modifies `queueRead, `view, `next
      ensures Rings() && next == |history|
      ensures view == Shown(history[Oldest(|history|)..])
    {
      hide Holds, Slot, Texts, Flags, Kept, Lines, Untouched, Oldest, Shown;
      ListLines();
      Drained(queue[..], mustPopup[..], history, next);
      next := |history|;
    }

    // stored_warning_trace_textview_create.  Opening the view lists the last
    // thousand warnings as far as the window holds them, and what was still to
    // pop up never will.
    method OpenView()
      requires Valid()
      modifies `queueRead, `next, `viewOpen, `view, `since, `shownBefore, `viewFrom
      ensures Valid() && viewOpen && history == old(history)
      ensures old(viewOpen) ==> next == old(next) && view == old(view)
      ensures !old(viewOpen) ==>
                && view == Shown(history[if |history| < 1000 then 0 else |history| - 1000..])
                && next == |history| && ToShow() == []
    {
      hide Rings, Lines, Flagged, Oldest, Shown;
      if !viewOpen {
        viewOpen := true;
        view := "";
        FillItUp();
        since, shownBefore, viewFrom := next, shown, Oldest(|history|);
        OldestIs(|history|);
        assert Seen() && ToShow() == [] by {
          NoneFlagged(history);
          assert history[since..next] == history[|history|..];
        }
      }
    }

    // trace_textview_destroy
    method CloseView()
      requires Valid()
      modifies `viewOpen
      ensures Valid() && !viewOpen
    {
      hide Rings;
      viewOpen := false;
    }
  }

  // ---- steps of the class above, on values

  lemma InsertedRings(ring: seq<string>, flags: seq<bool>, kept: seq<Option<string>>,
                      h: seq<Warning>, next: nat, w: Warning)
    requires next <= |h| < next + MAX_WARNING
    requires Holds(ring, Texts(h), next) && Holds(flags, Flags(h), next)
    requires Holds(kept, Kept(h), Oldest(|h|))
    requires Untouched(kept, |h|)
    ensures Holds(ring[Slot(|h|) := w.text], Texts(h + [w]), next)
    ensures Holds(flags[Slot(|h|) := w.flagged], Flags(h + [w]), next)
    ensures Holds(kept[Slot(|h|) := Some(w.text + "\n")], Kept(h + [w]), Oldest(|h| + 1))
    ensures Untouched(kept[Slot(|h|) := Some(w.text + "\n")], |h| + 1)
  {
    Snoc(h, w);
    assert |Texts(h)| == |Flags(h)| == |Kept(h)| == |h|;
    assert |h| < MAX_WARNING ==> Slot(|h|) == |h|;
    hide Texts, Flags, Kept, Slot;
    HoldsPush(ring, Texts(h), next, w.text);
    HoldsPush(flags, Flags(h), next, w.flagged);
    HoldsPush(kept, Kept(h), Oldest(|h|), Some(w.text + "\n"));
  }

  lemma InsertedSeen(h: seq<Warning>, since: nat, next: nat, viewFrom: nat, w: Warning)
    requires since <= next <= |h|
    ensures (h + [w])[since..next] == h[since..next]
    ensures viewFrom <= |h| ==> Shown((h + [w])[viewFrom..]) == Trimmed(Shown(h[viewFrom..]) + (w.text + "\n"))
  {
    if viewFrom <= |h| {
      assert (h + [w])[viewFrom..] == h[viewFrom..] + [w];
      ShownSnoc(h[viewFrom..], w);
    }
  }

  lemma RingRead(ring: seq<string>, flags: seq<bool>, h: seq<Warning>, next: nat)
    requires next < |h| && Holds(ring, Texts(h), next) && Holds(flags, Flags(h), next)
    ensures ring[Slot(next)] == h[next].text && flags[Slot(next)] == h[next].flagged
    ensures Holds(ring, Texts(h), next + 1) || |h| > next + 1 + MAX_WARNING
    ensures Holds(flags, Flags(h), next + 1) || |h| > next + 1 + MAX_WARNING
  {
    hide Slot;
    assert Texts(h)[next] == h[next].text && Flags(h)[next] == h[next].flagged;
  }

  lemma Drained(ring: seq<string>, flags: seq<bool>, h: seq<Warning>, next: nat)
    requires Holds(ring, Texts(h), next) && Holds(flags, Flags(h), next)
    ensures Holds(ring, Texts(h), |h|) && Holds(flags, Flags(h), |h|)
  {
  }

  lemma NoneFlagged(h: seq<Warning>)
    ensures Flagged(h[|h|..]) == []
  {
  }
}
