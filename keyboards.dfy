/**
 * The inline keyboards of the chat (app/telegram/utils/keyboards.py). A
 * builder collects buttons in the order `button()` is called; `attach`
 * appends another builder's buttons. Row layout (`adjust`) is not modelled.
 */
module Keyboards {
  import opened Wrappers
  import opened Callbacks
  import opened Crud

  class KeyboardBuilder {
    var buttons: seq<Button>

    constructor()
      ensures buttons == []
    {
      buttons := [];
    }

    /** `keyboard.button(text=..., callback_data=...)`. */
    method AddButton(text: string, data: CallbackData)
      modifies this
      ensures buttons == old(buttons) + [Button(text, data)]
    {
      buttons := buttons + [Button(text, data)];
    }

    /** `keyboard.attach(other)`. */
    method Attach(other: KeyboardBuilder)
      modifies this
      ensures buttons == old(buttons) + old(other.buttons)
    {
      buttons := buttons + other.buttons;
    }
  }

  /** The buttons of the title keyboard: one per title, in listing order. */
  function AnimeButtons(items: seq<Listed>): (r: seq<Button>)
    ensures |r| == |items|
    ensures forall i :: 0 <= i < |items| ==> r[i] == Button(items[i].name, AnimeChoose(items[i].id))
  {
    if items == [] then [] else AnimeButtons(items[..|items| - 1]) + [Button(items[|items| - 1].name, AnimeChoose(items[|items| - 1].id))]
  }

  const ACTIONS: seq<string> := ["Update", "Rename", "Delete"]

  /** `get_keyboard_abort(action, name)`: a single button aborting `action`. */
  method KeyboardAbort(action: string, name: string := "Abort") returns (k: KeyboardBuilder)
    ensures fresh(k) && k.buttons == [Button(name, Abort(action))]
  {
    k := new KeyboardBuilder();
    k.AddButton(name, Abort(action));
  }

  /** `get_keyboard_anime(all_anime)`. */
  method KeyboardAnime(items: seq<Listed>) returns (k: KeyboardBuilder)
    ensures fresh(k) && k.buttons == AnimeButtons(items)
  {
    k := new KeyboardBuilder();
    var i := 0;
    while i < |items|
      invariant 0 <= i <= |items|
      invariant k.buttons == AnimeButtons(items[..i])
    {
      assert items[..i + 1][..i] == items[..i];
      k.AddButton(items[i].name, AnimeChoose(items[i].id));
      i := i + 1;
    }
    assert items[..i] == items;
  }

  /** `get_keyboard_anime_add()`. */
  method KeyboardAnimeAdd() returns (k: KeyboardBuilder)
    ensures fresh(k) && k.buttons == [Button("Add", AnimeAdd)]
  {
    k := new KeyboardBuilder();
    var labels := ["Add"];
    var i := 0;
    while i < |labels|
      invariant 0 <= i <= |labels|
      invariant k.buttons == if i == 0 then [] else [Button("Add", AnimeAdd)]
    {
      k.AddButton(labels[i], AnimeAdd);
      i := i + 1;
    }
  }

  /** `get_keyboard_anime_actions(id)`: Update, Rename and Delete for one title. */
  method KeyboardAnimeActions(id: int) returns (k: KeyboardBuilder)
    ensures fresh(k) && |k.buttons| == |ACTIONS|
    ensures forall i :: 0 <= i < |ACTIONS| ==> k.buttons[i] == Button(ACTIONS[i], AnimeAction(id, ACTIONS[i]))
  {
    k := new KeyboardBuilder();
    var i := 0;
    while i < |ACTIONS|
      invariant 0 <= i <= |ACTIONS| && |k.buttons| == i
      invariant forall p :: 0 <= p < i ==> k.buttons[p] == Button(ACTIONS[p], AnimeAction(id, ACTIONS[p]))
    {
      k.AddButton(ACTIONS[i], AnimeAction(id, ACTIONS[i]));
      i := i + 1;
    }
  }

  /** The keyboard `anime_handler` sends with "Anime:": the titles, then "Add", then "End". */
  method AnimeMenu(items: seq<Listed>) returns (k: KeyboardBuilder)
    ensures fresh(k) && k.buttons == AnimeButtons(items) + [Button("Add", AnimeAdd), Button("End", Abort("anime"))]
  {
    k := KeyboardAnime(items);
    var add := KeyboardAnimeAdd();
    k.Attach(add);
    var abort := KeyboardAbort("anime", "End");
    k.Attach(abort);
  }

  // ---------------------------------------------------------------------------
  // Properties

  /** Choosing a title in the title keyboard reads back the name of the first title with that id. */
  lemma {:induction false} ChosenTitleName(items: seq<Listed>, i: nat)
    requires i < |items| && forall p :: 0 <= p < i ==> items[p].id != items[i].id
    ensures FirstIn(AnimeButtons(items), AnimeChoose(items[i].id)) == Some(items[i].name)
  {
    var b := AnimeButtons(items);
    if i > 0 {
      assert b[1..] == AnimeButtons(items[1..]) by {
        var r := AnimeButtons(items[1..]);
        assert |r| == |b| - 1;
        forall p | 0 <= p < |r| ensures r[p] == b[1..][p] {
          assert items[1..][p] == items[p + 1];
        }
      }
      forall p | 0 <= p < i - 1 ensures items[1..][p].id != items[1..][i - 1].id {
        assert items[1..][p] == items[p + 1];
      }
      ChosenTitleName(items[1..], i - 1);
      assert items[1..][i - 1] == items[i];
    }
  }

  /** In the `/anime` menu the "Add" and "End" buttons are found by their callbacks, after every title. */
  lemma MenuCallbacks(items: seq<Listed>)
    ensures var menu := AnimeButtons(items) + [Button("Add", AnimeAdd), Button("End", Abort("anime"))];
      && FirstMatch([menu], AnimeAdd) == Some("Add")
      && FirstMatch([menu], Abort("anime")) == Some("End")
  {
    var menu := AnimeButtons(items) + [Button("Add", AnimeAdd), Button("End", Abort("anime"))];
    FirstInFinds(menu, AnimeAdd);
    FirstInFinds(menu, Abort("anime"));
    assert menu[|items|] == Button("Add", AnimeAdd);
    assert menu[|items| + 1] == Button("End", Abort("anime"));
  }
}
