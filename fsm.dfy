/**
 * The conversation state of the chat (aiogram's FSMContext with the forms of
 * app/telegram/utils/forms.py): the form step the chat is in and the data
 * saved with it. The saved values are message and title ids, so the data is a
 * map from key to integer.
 */
module Fsm {

  /** No form, or one of the three form steps. */
  datatype FormState = NoForm | AddAnimeId | AddAnimeName | RenameAnimeName

  class FsmContext {
    var state: FormState
    var data: map<string, int>

    constructor()
      ensures state == NoForm && data == map[]
    {
      state := NoForm;
      data := map[];
    }

    /** `state.clear()`: leaves the form and forgets its data. */
    method Clear()
      modifies this
      ensures state == NoForm && data == map[]
    {
      state := NoForm;
      data := map[];
    }

    /** `state.set_data(d)`: replaces the data; the step stays. */
    method SetData(d: map<string, int>)
      modifies this
      ensures data == d && state == old(state)
    {
      data := d;
    }

    /** `state.set_state(s)`: moves to a step; the data stays. */
    method SetState(s: FormState)
      modifies this
      ensures state == s && data == old(data)
    {
      state := s;
    }
  }
}
