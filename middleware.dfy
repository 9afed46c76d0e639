/**
 * The owner-only filter in front of every chat handler
 * (app/telegram/middlewares.py). The handler is a parameter; the filter
 * either passes the event and data to it and returns its result, or returns
 * `None`, answering the "/start" command of a stranger with a refusal.
 */
module Middleware {
  import opened Wrappers
  import opened Text
  import opened Json

  /**
   * The parts of a message or callback query the filter reads: the sender's
   * id, and the text and caption (`None` when the event has no such
   * attribute or it is unset).
   */
  datatype Event = Event(userId: int, text: Option<string>, caption: Option<string>)

  /** What the filter did: the handler's result when it was called, and the answers sent. */
  datatype Outcome<R> = Outcome(result: Option<R>, answers: seq<string>)

  const REFUSAL: string := "You are not allowed to use this bot"

  /** A text is used only when it is set and not empty. */
  predicate Given(v: Option<string>) { v.Some? && v.value != "" }

  /** `(text or caption or "").strip()`. */
  function CommandOf(e: Event): (c: string)
    ensures Given(e.text) ==> c == Strip(e.text.value)
    ensures !Given(e.text) && Given(e.caption) ==> c == Strip(e.caption.value)
    ensures !Given(e.text) && !Given(e.caption) ==> c == ""
  {
    Strip(if Given(e.text) then e.text.value else if Given(e.caption) then e.caption.value else "")
  }

  /** The sender is the configured owner, compared with Python's `!=`. */
  predicate IsOwner(e: Event, ownerId: Json) {
    PyEq(JInt(e.userId), ownerId)
  }

  /** `AuthChatMiddleware.__call__`. */
  function Authorize<D, R>(handler: (Event, D) -> R, event: Event, data: D, ownerId: Json): (r: Outcome<R>)
    ensures r.result.Some? <==> IsOwner(event, ownerId)
    ensures r.result.Some? ==> r.result.value == handler(event, data) && r.answers == []
    ensures r.answers != [] <==> !IsOwner(event, ownerId) && StartsWith(CommandOf(event), "/start")
    ensures r.answers != [] ==> r.answers == [REFUSAL]
  {
    if !IsOwner(event, ownerId) then
      Outcome(None, if StartsWith(CommandOf(event), "/start") then [REFUSAL] else [])
    else Outcome(Some(handler(event, data)), [])
  }

  // ---------------------------------------------------------------------------
  // Properties

  /** An owner id configured as a string matches no user id: nobody gets through. */
  lemma StringOwnerLocksEveryone<D, R>(handler: (Event, D) -> R, event: Event, data: D, owner: string)
    ensures Authorize(handler, event, data, JStr(owner)).result == None
  {
  }

  /** Dropping leading whitespace leaves a text that starts with a non-space character as it is. */
  lemma {:induction false} LStripSpacesBefore(sp: string, t: string)
    requires AllSpaces(sp) && t != [] && !IsSpace(t[0])
    ensures LStrip(sp + t) == t
    decreases |sp|
  {
    if sp != [] {
      assert (sp + t)[1..] == sp[1..] + t;
      LStripSpacesBefore(sp[1..], t);
    } else {
      assert sp + t == t;
    }
  }

  /** Dropping trailing whitespace keeps every character up to the last non-space one. */
  lemma RStripKeeps(t: string, k: nat)
    requires 0 < k <= |t| && !IsSpace(t[k - 1])
    ensures |RStrip(t)| >= k && RStrip(t)[..k] == t[..k]
  {
  }

  /** Whitespace around "/start" and anything after it do not hide the command from the check. */
  lemma StartAfterSpaces(sp: string, rest: string)
    requires AllSpaces(sp)
    ensures StartsWith(Strip(sp + "/start" + rest), "/start")
  {
    var t := "/start" + rest;
    assert sp + "/start" + rest == sp + t;
    assert t[0] == '/' && t[5] == 't' && t[..6] == "/start";
    LStripSpacesBefore(sp, t);
    RStripKeeps(t, 6);
  }

  /** A stranger sending " /start ..." is refused, and the handler is not called. */
  lemma StrangerStartIsRefused<D, R>(handler: (Event, D) -> R, userId: int, sp: string, rest: string, data: D, ownerId: Json)
    requires AllSpaces(sp) && !PyEq(JInt(userId), ownerId)
    ensures Authorize(handler, Event(userId, Some(sp + "/start" + rest), None), data, ownerId)
      == Outcome(None, [REFUSAL])
  {
    StartAfterSpaces(sp, rest);
  }
}
