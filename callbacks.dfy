/**
 * The callback data of the inline buttons and the search for the text of the
 * button that carries a given callback (app/telegram/utils/callbacks.py).
 * Callback data are compared as values; their packed wire form is not
 * modelled.
 */
module Callbacks {
  import opened Wrappers

  /** The four callback kinds, each with its fields. */
  datatype CallbackData =
    | Abort(action: string)
    | AnimeChoose(id: int)
    | AnimeAdd
    | AnimeAction(id: int, action: string)

  datatype Button = Button(text: string, data: CallbackData)

  /** The text of the first button of `buttons` carrying `target`. */
  function FirstIn(buttons: seq<Button>, target: CallbackData): Option<string> {
    if buttons == [] then None
    else if buttons[0].data == target then Some(buttons[0].text)
    else FirstIn(buttons[1..], target)
  }

  /** The text of the first matching button, keyboard by keyboard. */
  function FirstMatch(keyboards: seq<seq<Button>>, target: CallbackData): Option<string> {
    if keyboards == [] then None
    else if FirstIn(keyboards[0], target).Some? then FirstIn(keyboards[0], target)
    else FirstMatch(keyboards[1..], target)
  }

  /** `get_choosed_callback_text(keyboards, callback_data)`; `None` when no button matches. */
  method ChoosedCallbackText(keyboards: seq<seq<Button>>, target: CallbackData) returns (r: Option<string>)
    ensures r == FirstMatch(keyboards, target)
  {
    var i := 0;
    while i < |keyboards|
      invariant 0 <= i <= |keyboards|
      invariant FirstMatch(keyboards, target) == FirstMatch(keyboards[i..], target)
    {
      var keyboard := keyboards[i];
      var j := 0;
      while j < |keyboard|
        invariant 0 <= j <= |keyboard|
        invariant FirstIn(keyboard, target) == FirstIn(keyboard[j..], target)
      {
        assert keyboard[j..][1..] == keyboard[j + 1..];
        if keyboard[j].data == target {
          return Some(keyboard[j].text);
        }
        j := j + 1;
      }
      assert keyboards[i..][1..] == keyboards[i + 1..];
      i := i + 1;
    }
    return None;
  }

  // ---------------------------------------------------------------------------
  // Properties

  /** A button matches at position `(i, j)`. */
  predicate MatchAt(keyboards: seq<seq<Button>>, target: CallbackData, i: int, j: int) {
    0 <= i < |keyboards| && 0 <= j < |keyboards[i]| && keyboards[i][j].data == target
  }

  /** Within one keyboard: the first matching button, or none at all. */
  lemma {:induction false} FirstInFinds(buttons: seq<Button>, target: CallbackData)
    ensures FirstIn(buttons, target).None? <==> forall j :: 0 <= j < |buttons| ==> buttons[j].data != target
    ensures FirstIn(buttons, target).Some? ==>
      exists j :: 0 <= j < |buttons| && buttons[j].data == target && buttons[j].text == FirstIn(buttons, target).value
                  && forall j' :: 0 <= j' < j ==> buttons[j'].data != target
  {
    if buttons != [] {
      FirstInFinds(buttons[1..], target);
      if buttons[0].data != target && FirstIn(buttons, target).Some? {
        var j :| 0 <= j < |buttons[1..]| && buttons[1..][j].data == target
                 && buttons[1..][j].text == FirstIn(buttons, target).value
                 && forall j' :: 0 <= j' < j ==> buttons[1..][j'].data != target;
        assert buttons[j + 1] == buttons[1..][j];
        forall j' | 0 <= j' < j + 1 ensures buttons[j'].data != target {
          if j' > 0 {
            assert buttons[j'] == buttons[1..][j' - 1];
          }
        }
      }
    }
  }

  /** No button matches exactly when the search returns `None`. */
  lemma {:induction false} NoMatchIsNone(keyboards: seq<seq<Button>>, target: CallbackData)
    ensures FirstMatch(keyboards, target).None? <==> forall i, j :: !MatchAt(keyboards, target, i, j)
  {
    if keyboards != [] {
      var rest := keyboards[1..];
      FirstInFinds(keyboards[0], target);
      NoMatchIsNone(rest, target);
      if FirstMatch(keyboards, target).None? {
        forall i, j ensures !MatchAt(keyboards, target, i, j) {
          if i > 0 && MatchAt(keyboards, target, i, j) {
            assert rest[i - 1] == keyboards[i];
            assert MatchAt(rest, target, i - 1, j);
          }
        }
      } else if FirstIn(keyboards[0], target).Some? {
        var j :| 0 <= j < |keyboards[0]| && keyboards[0][j].data == target;
        assert MatchAt(keyboards, target, 0, j);
      } else {
        var i, j :| MatchAt(rest, target, i, j);
        var k := i + 1;
        assert rest[i] == keyboards[k];
        assert MatchAt(keyboards, target, k, j);
      }
    }
  }

  /**
   * A returned text is that of a matching button, and the first one: no
   * earlier keyboard holds a match, nor an earlier button of its own keyboard.
   */
  lemma {:induction false} FoundIsFirst(keyboards: seq<seq<Button>>, target: CallbackData)
    requires FirstMatch(keyboards, target).Some?
    ensures exists i, j ::
      && MatchAt(keyboards, target, i, j) && keyboards[i][j].text == FirstMatch(keyboards, target).value
      && (forall i', j' :: 0 <= i' < i ==> !MatchAt(keyboards, target, i', j'))
      && (forall j' :: 0 <= j' < j ==> !MatchAt(keyboards, target, i, j'))
  {
    FirstInFinds(keyboards[0], target);
    if FirstIn(keyboards[0], target).Some? {
      var j :| 0 <= j < |keyboards[0]| && keyboards[0][j].data == target
               && keyboards[0][j].text == FirstIn(keyboards[0], target).value
               && forall j' :: 0 <= j' < j ==> keyboards[0][j'].data != target;
      assert MatchAt(keyboards, target, 0, j);
    } else {
      var rest := keyboards[1..];
      FoundIsFirst(rest, target);
      var i, j :| MatchAt(rest, target, i, j) && rest[i][j].text == FirstMatch(rest, target).value
        && (forall i', j' :: 0 <= i' < i ==> !MatchAt(rest, target, i', j'))
        && (forall j' :: 0 <= j' < j ==> !MatchAt(rest, target, i, j'));
      var k := i + 1;
      assert rest[i] == keyboards[k];
      assert MatchAt(keyboards, target, k, j);
      forall i', j' | 0 <= i' < k ensures !MatchAt(keyboards, target, i', j') {
        if i' > 0 {
          assert keyboards[i'] == rest[i' - 1];
          assert !MatchAt(rest, target, i' - 1, j');
        }
      }
      forall j' | 0 <= j' < j ensures !MatchAt(keyboards, target, k, j') {
        assert !MatchAt(rest, target, i, j');
      }
    }
  }
}
