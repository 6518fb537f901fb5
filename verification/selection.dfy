/**
 How `action` picks one annotation (src/media.c:110-119) and the mouse
 selection `mouse_select` (src/media.c:206-224). The X event queue is
 passed in as a sequence of events; the cursor calls and `XFlush` are
 window-system effects and are not modelled.
 */
module Selection {

  import opened Options
  import opened Numeric
  import opened Geometry
  import opened Search

  /** How the command asks for an annotation. */
  datatype SelectMode =
    | Interactive   // no argument: wait for a click
    | ByIndex(n: int) // a nonzero number: 1-based position in collection order
    | ByKind        // an argument that reads as 0: reserved, selects nothing

  predicate IsBlank(c: char) {
    c == ' '
  }

  /** `strchr(cmd, ' ')`: position of the first blank. */
  function FirstBlank(cmd: string): (k: Option<nat>)
    ensures k.None? <==> ' ' !in cmd
    ensures k.Some? ==> k.value < |cmd| && cmd[k.value] == ' ' && ' ' !in cmd[..k.value]
  {
    var k := FirstIndex(cmd, IsBlank);
    if k.Some? then
      assert forall j :: 0 <= j < k.value ==> cmd[..k.value][j] == cmd[j];
      k
    else
      assert forall j :: 0 <= j < |cmd| ==> !IsBlank(cmd[j]);
      k
  }

  /** The `while (*opt == ' ') opt++` loop: drop leading blanks. */
  function SkipBlanks(s: string): (t: string)
    ensures |t| <= |s| && t == s[|s| - |t|..]
    ensures forall i :: 0 <= i < |s| - |t| ==> s[i] == ' '
    ensures |t| == 0 || t[0] != ' '
  {
    if |s| > 0 && s[0] == ' ' then SkipBlanks(s[1..]) else s
  }

  /** The text after the first run of blanks, if the command has a blank at all. */
  function Argument(cmd: string): Option<string> {
    match FirstBlank(cmd)
    case None => None
    case Some(k) => Some(SkipBlanks(cmd[k..]))
  }

  /** The selection method `action` derives from its command. */
  function ParseSelection(cmd: string): (m: SelectMode)
    ensures m.Interactive? <==> ' ' !in cmd
    ensures m.ByIndex? ==> m.n != 0 && Argument(cmd).Some? && m.n == Atoi(Argument(cmd).value)
    ensures m.ByKind? ==> Argument(cmd).Some? && Atoi(Argument(cmd).value) == 0
  {
    match Argument(cmd)
    case None => Interactive
    case Some(arg) =>
      var n := Atoi(arg);
      if n != 0 then ByIndex(n) else ByKind
  }

  lemma SkipBlanksOfBlanks(blanks: string, t: string)
    requires forall i :: 0 <= i < |blanks| ==> blanks[i] == ' '
    requires |t| == 0 || t[0] != ' '
    ensures SkipBlanks(blanks + t) == t
  {
    if |blanks| > 0 {
      assert (blanks + t)[1..] == blanks[1..] + t;
      SkipBlanksOfBlanks(blanks[1..], t);
    }
  }

  lemma ArgumentOf(verb: string, blanks: string, arg: string)
    requires ' ' !in verb
    requires 0 < |blanks| && forall i :: 0 <= i < |blanks| ==> blanks[i] == ' '
    requires |arg| == 0 || arg[0] != ' '
    ensures Argument(verb + blanks + arg) == Some(arg)
  {
    var cmd := verb + blanks + arg;
    assert cmd[|verb|] == ' ';
    assert cmd[..|verb|] == verb;
    FirstIndexUnique(cmd, IsBlank, |verb|);
    assert cmd[|verb|..] == blanks + arg;
    SkipBlanksOfBlanks(blanks, arg);
  }

  /**
   A verb, blanks and the `%d` text of a nonzero number select that
   number, whatever non-digit text follows it.
   */
  lemma ParseIndexCommand(verb: string, blanks: string, n: int, post: string)
    requires ' ' !in verb
    requires 0 < |blanks| && forall i :: 0 <= i < |blanks| ==> blanks[i] == ' '
    requires n != 0
    requires |post| == 0 || !IsDigit(post[0])
    ensures ParseSelection(verb + blanks + DecimalText(n) + post) == ByIndex(n)
  {
    var arg := DecimalText(n) + post;
    DecimalTextShape(n);
    assert arg[0] == DecimalText(n)[0];
    assert verb + blanks + DecimalText(n) + post == verb + blanks + arg;
    ArgumentOf(verb, blanks, arg);
    AtoiOfDecimalTextThen(n, post);
  }

  /**
   A verb followed only by blanks selects nothing: the argument is empty,
   `atoi` reads 0, and no interactive selection is started.
   */
  lemma ParseTrailingBlanks(verb: string, blanks: string)
    requires ' ' !in verb
    requires 0 < |blanks| && forall i :: 0 <= i < |blanks| ==> blanks[i] == ' '
    ensures ParseSelection(verb + blanks) == ByKind
  {
    ArgumentOf(verb, blanks, "");
    assert verb + blanks + "" == verb + blanks;
  }

  /** The outcome of choosing an annotation. */
  datatype Choice =
    | Chosen(index: nat)    // 0-based position in collection order
    | NoChoice
    | OutOfRange(n: int)    // an index outside 1..count

  /**
   The 1-based index path. The C code indexes the array without a bounds
   check; here an index outside 1..count is reported.
   */
  function ChooseByIndex(n: int, count: nat): (c: Choice)
    ensures c.Chosen? <==> 1 <= n <= count
    ensures c.Chosen? ==> c.index + 1 == n && c.index < count
    ensures !c.Chosen? ==> c == OutOfRange(n)
  {
    if 1 <= n <= count then Chosen(n - 1) else OutOfRange(n)
  }

  /** First rectangle, in collection order, that strictly contains the point. */
  function FirstHit(rects: seq<Rect>, x: real, y: real): (k: Option<nat>)
    ensures k.Some? ==> k.value < |rects| && Contains(rects[k.value], x, y)
    ensures k.Some? ==> forall j :: 0 <= j < k.value ==> !Contains(rects[j], x, y)
    ensures k.None? <==> forall j :: 0 <= j < |rects| ==> !Contains(rects[j], x, y)
  {
    FirstIndex(rects, (r: Rect) => Contains(r, x, y))
  }

  /** The loop of `mouse_select`, index by index. */
  method FindHit(rects: seq<Rect>, x: real, y: real) returns (k: Option<nat>)
    ensures k.Some? ==> k.value < |rects| && Contains(rects[k.value], x, y)
    ensures k.Some? ==> forall j :: 0 <= j < k.value ==> !Contains(rects[j], x, y)
    ensures k.None? <==> forall j :: 0 <= j < |rects| ==> !Contains(rects[j], x, y)
    ensures k == FirstHit(rects, x, y)
  {
    var i := 0;
    while i < |rects|
      invariant 0 <= i <= |rects|
      invariant forall j :: 0 <= j < i ==> !Contains(rects[j], x, y)
      decreases |rects| - i
    {
      if Contains(rects[i], x, y) {
        return Some(i);
      }
      i := i + 1;
    }
    return None;
  }

  /** The events `XMaskEvent(ButtonPressMask | KeyPressMask)` can return, plus everything else. */
  datatype XEvent = KeyPress | ButtonPress(x: int, y: int) | OtherEvent

  predicate Awaited(e: XEvent) {
    e.KeyPress? || e.ButtonPress?
  }

  /** The queue with its `k`-th event taken out. */
  function Without(q: seq<XEvent>, k: nat): (rest: seq<XEvent>)
    requires k < |q|
    ensures |rest| == |q| - 1
    ensures multiset(rest) + multiset{q[k]} == multiset(q)
  {
    assert q == q[..k] + [q[k]] + q[k + 1..];
    q[..k] + q[k + 1..]
  }

  /** Result of `mouse_select`: still waiting for an event, or done with the queue left behind. */
  datatype MouseResult = Waiting | Done(pick: Option<nat>, queue: seq<XEvent>)

  /**
   `mouse_select`: take the first key or button event from the queue. A key
   press is pushed back onto the front of the queue and picks nothing; a
   button press is consumed and picks the first rectangle containing it.
   With no such event the call blocks.
   */
  function MouseSelect(q: seq<XEvent>, rects: seq<Rect>): (m: MouseResult)
    ensures m.Waiting? <==> forall j :: 0 <= j < |q| ==> !Awaited(q[j])
  {
    match FirstIndex(q, Awaited)
    case None => Waiting
    case Some(k) =>
      var e := q[k];
      if e.KeyPress? then Done(None, [e] + Without(q, k))
      else Done(FirstHit(rects, e.x as real, e.y as real), Without(q, k))
  }

  /**
   A key press is not consumed: the same events stay queued, the key press
   first, so the next wait returns it again; nothing is picked.
   */
  lemma KeyPressPutBack(q: seq<XEvent>, rects: seq<Rect>, k: nat)
    requires k < |q| && q[k] == KeyPress
    requires forall j :: 0 <= j < k ==> !Awaited(q[j])
    ensures var m := MouseSelect(q, rects);
      && m.Done? && m.pick.None?
      && m.queue == [KeyPress] + Without(q, k)
      && multiset(m.queue) == multiset(q)
      && FirstIndex(m.queue, Awaited) == Some(0) && m.queue[0] == KeyPress
  {
    FirstIndexUnique(q, Awaited, k);
    var m := MouseSelect(q, rects);
    var rest := Without(q, k);
    assert m.queue == [KeyPress] + rest;
    assert multiset(m.queue) == multiset{KeyPress} + multiset(rest);
    FirstIndexUnique(m.queue, Awaited, 0);
  }

  /**
   A button press is consumed and picks the first annotation whose screen
   rectangle strictly contains the click position.
   */
  lemma ButtonPressPicks(q: seq<XEvent>, rects: seq<Rect>, k: nat)
    requires k < |q| && q[k].ButtonPress?
    requires forall j :: 0 <= j < k ==> !Awaited(q[j])
    ensures var m := MouseSelect(q, rects);
      && m.Done?
      && m.pick == FirstHit(rects, q[k].x as real, q[k].y as real)
      && m.queue == Without(q, k)
      && multiset(m.queue) + multiset{q[k]} == multiset(q)
  {
    FirstIndexUnique(q, Awaited, k);
  }

  /** The selection and the event queue once the selection step is over, or a blocked wait. */
  datatype SelectResult = Selected(choice: Choice, queue: seq<XEvent>) | Blocked

  /** The selection step of `action`. */
  function Select(cmd: string, rects: seq<Rect>, q: seq<XEvent>): (s: SelectResult)
    ensures s.Selected? && s.choice.Chosen? ==> s.choice.index < |rects|
    ensures !ParseSelection(cmd).Interactive? ==> s.Selected? && s.queue == q
    ensures s.Blocked? <==> ParseSelection(cmd).Interactive? && forall j :: 0 <= j < |q| ==> !Awaited(q[j])
  {
    match ParseSelection(cmd)
    case Interactive =>
      (match MouseSelect(q, rects)
       case Waiting => Blocked
       case Done(pick, q') => Selected(if pick.Some? then Chosen(pick.value) else NoChoice, q'))
    case ByIndex(n) => Selected(ChooseByIndex(n, |rects|), q)
    case ByKind => Selected(NoChoice, q)
  }

}
