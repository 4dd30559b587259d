// Menus of the terminal shown in the browser, and the keys that answer them.
module Menus {
  import opened Common

  /** A row; its text stands for all it displays besides the two flags. */
  datatype MenuOption = MenuOption(key: string, text: string, selected: bool, disabled: bool)
  datatype Menu = Menu(kind: string, title: string, prompt: string, options: seq<MenuOption>, actions: set<string>)

  /** Ids shown to the browser are keyed hashes of exactly these parts. */
  datatype PublicId =
    | InteractionId(session: string, generation: nat, menu: Menu)
    | OptionId(interaction: PublicId, index: nat, key: string)
    | Foreign(text: string)

  /** What a look at a terminal shows; a menu that is not there counts as None. */
  datatype Look = NoSession | Screen(menu: Option<Menu>)

  // ---------------------------------------------------------------- generations

  /** How often what is shown changed. */
  function Changes(shown: seq<Option<Menu>>): nat {
    if |shown| <= 1 then 0
    else Changes(shown[..|shown| - 1]) + if shown[|shown| - 1] == shown[|shown| - 2] then 0 else 1
  }

  ghost predicate Unchanged(shown: seq<Option<Menu>>, i: nat, j: nat)
    requires i <= j < |shown|
  {
    forall k :: i < k <= j ==> shown[k] == shown[k - 1]
  }

  lemma {:induction false} ChangesCount(shown: seq<Option<Menu>>, i: nat, j: nat)
    requires i <= j < |shown|
    ensures Changes(shown[..i + 1]) <= Changes(shown[..j + 1])
    ensures Changes(shown[..i + 1]) == Changes(shown[..j + 1]) <==> Unchanged(shown, i, j)
    ensures Unchanged(shown, i, j) ==> shown[i] == shown[j]
  {
    if i < j {
      ChangesCount(shown, i, j - 1);
      assert shown[..j + 1][..j] == shown[..j];
      assert Unchanged(shown, i, j) <==> Unchanged(shown, i, j - 1) && shown[j] == shown[j - 1];
    }
  }

  /** The id issued for the menu shown at step i. */
  function IdAt(session: string, shown: seq<Option<Menu>>, i: nat): Option<PublicId>
    requires i < |shown|
  {
    if shown[i].None? then None else Some(InteractionId(session, 1 + Changes(shown[..i + 1]), shown[i].value))
  }

  /** An id is current exactly until what is shown first changes, even if the same menu comes back. */
  lemma IdsExpire(session: string, shown: seq<Option<Menu>>, i: nat, j: nat)
    requires i <= j < |shown| && shown[i].Some?
    ensures IdAt(session, shown, i) == IdAt(session, shown, j) <==> Unchanged(shown, i, j)
  {
    ChangesCount(shown, i, j);
  }

  // ---------------------------------------------------------------- keys

  datatype Key = Up | Down | Enter | Escape
  datatype Refusal = UnknownOption | Disabled | NoSelection | UnsupportedAction
  datatype Plan = Press(keys: seq<Key>) | Refuse(refusal: Refusal)

  function Selected(options: seq<MenuOption>): (k: Option<nat>)
    ensures k.Some? ==>
      k.value < |options| && options[k.value].selected && forall i :: 0 <= i < k.value ==> !options[i].selected
    ensures k.None? ==> forall i :: 0 <= i < |options| ==> !options[i].selected
  {
    if options == [] then None
    else if options[0].selected then Some(0)
    else var rest := Selected(options[1..]); if rest.None? then None else Some(rest.value + 1)
  }

  /** The row whose id the browser sent; ids contain their row, so there is one at most. */
  predicate Names(option: PublicId, interaction: PublicId, options: seq<MenuOption>) {
    option.OptionId? && option.interaction == interaction && option.index < |options| && option.key == options[option.index].key
  }

  function Repeat(key: Key, n: nat): (keys: seq<Key>)
    ensures |keys| == n && forall i :: 0 <= i < n ==> keys[i] == key
  {
    if n == 0 then [] else Repeat(key, n - 1) + [key]
  }

  function ActionKey(action: string): Option<Key> {
    if action == "previous" then Some(Up)
    else if action == "next" then Some(Down)
    else if action == "choose" then Some(Enter)
    else if action == "cancel" then Some(Escape)
    else None
  }

  function KeysFor(menu: Menu, interaction: PublicId, action: string, option: Option<PublicId>): Plan {
    if option.Some? then
      if !Names(option.value, interaction, menu.options) then Refuse(UnknownOption)
      else var target := option.value.index;
        if menu.options[target].disabled then Refuse(Disabled)
        else match Selected(menu.options)
          case None => Refuse(NoSelection)
          case Some(row) =>
            Press((if target > row then Repeat(Down, target - row) else Repeat(Up, row - target)) + [Enter])
    else if ActionKey(action).None? || action !in menu.actions then Refuse(UnsupportedAction)
    else Press([ActionKey(action).value])
  }

  function Distance(a: nat, b: nat): nat {
    if a > b then a - b else b - a
  }

  /** The row a terminal menu of n rows selects after a key; arrows stop at the ends. */
  function Moved(row: int, key: Key, n: nat): int {
    if key == Down && row < n - 1 then row + 1 else if key == Up && row > 0 then row - 1 else row
  }

  function MovedAll(row: int, keys: seq<Key>, n: nat): int {
    if keys == [] then row else Moved(MovedAll(row, keys[..|keys| - 1], n), keys[|keys| - 1], n)
  }

  lemma {:induction false} RepeatMoves(row: nat, key: Key, count: nat, n: nat)
    requires row < n && (key == Down ==> row + count < n) && (key == Up ==> count <= row) && (key == Down || key == Up)
    ensures MovedAll(row, Repeat(key, count), n) == if key == Down then row + count else row - count
  {
    if count > 0 {
      RepeatMoves(row, key, count - 1, n);
      assert Repeat(key, count)[..count] == Repeat(key, count);
      assert Repeat(key, count)[..count - 1] == Repeat(key, count - 1);
    }
  }

  /** Answering with an option presses Enter once, last, and on exactly the row of that option, by the shortest way. */
  lemma KeysReachTheOption(menu: Menu, interaction: PublicId, action: string, option: PublicId)
    requires KeysFor(menu, interaction, action, Some(option)).Press?
    ensures Names(option, interaction, menu.options) && !menu.options[option.index].disabled
    ensures Selected(menu.options).Some?
    ensures var keys := KeysFor(menu, interaction, action, Some(option)).keys; var arrows := keys[..|keys| - 1];
      && keys == arrows + [Enter] && Enter !in arrows && Escape !in arrows
      && MovedAll(Selected(menu.options).value, arrows, |menu.options|) == option.index
      && |arrows| == Distance(option.index, Selected(menu.options).value)
  {
    var keys, row := KeysFor(menu, interaction, action, Some(option)).keys, Selected(menu.options).value;
    var key, count := if option.index > row then Down else Up, if option.index > row then option.index - row else row - option.index;
    assert keys == Repeat(key, count) + [Enter];
    hide KeysFor, Repeat, Selected, MovedAll;
    RepeatMoves(row, key, count, |menu.options|);
    assert keys[..|keys| - 1] == Repeat(key, count);
  }

  // ---------------------------------------------------------------- the service

  datatype State = State(seen: Option<Menu>, generation: nat)
  datatype Identity = Sha256(interaction: PublicId, action: string, option: Option<PublicId>)
  datatype Answer = Answer(interaction: Option<PublicId>, changed: bool)
  datatype Receipt = Receipt(session: string, identity: Identity, answer: Answer, updatedAt: int)
  datatype Outcome =
    | Done(answer: Answer, duplicate: bool)
    | InvalidRequest | Missing | RequestReused | NotCurrent | Refused(refusal: Refusal) | NotApplied

  /** The state of a session counts the changes of everything shown in it. */
  ghost predicate Counts(states: map<string, State>, shown: map<string, seq<Option<Menu>>>) {
    && states.Keys == shown.Keys
    && forall s :: s in states ==>
      shown[s] != [] && states[s].seen == shown[s][|shown[s]| - 1] && states[s].generation == 1 + Changes(shown[s])
  }

  function Shown(shown: map<string, seq<Option<Menu>>>, session: string): seq<Option<Menu>> {
    if session in shown then shown[session] else []
  }

  function Looked(shown: map<string, seq<Option<Menu>>>, session: string, look: Look): map<string, seq<Option<Menu>>> {
    if look.NoSession? then shown else shown[session := Shown(shown, session) + [look.menu]]
  }

  function LookedAll(shown: map<string, seq<Option<Menu>>>, session: string,
                     looks: seq<Look>): map<string, seq<Option<Menu>>> {
    if looks == [] then shown else Looked(LookedAll(shown, session, looks[..|looks| - 1]), session, looks[|looks| - 1])
  }

  /** The id of the menu on the screen, if one is shown now. */
  function CurrentId(shown: map<string, seq<Option<Menu>>>, session: string, look: Look): Option<PublicId> {
    if look.NoSession? then None
    else var all := Shown(shown, session) + [look.menu]; IdAt(session, all, |all| - 1)
  }

  /** Polling ended at the look that first showed something else, or at the last one. */
  ghost predicate Waited(shown: map<string, seq<Option<Menu>>>, session: string, prior: PublicId, polls: seq<Look>,
                         used: int, answer: Answer) {
    && 0 < used <= |polls|
    && answer.interaction == CurrentId(LookedAll(shown, session, polls[..used - 1]), session, polls[used - 1])
    && (forall k :: 0 <= k < used - 1 ==>
      CurrentId(LookedAll(shown, session, polls[..k]), session, polls[k]) == Some(prior))
    && (answer.changed <==> used < |polls|)
    && (answer.changed ==> answer.interaction != Some(prior))
  }

  /** The receipts that are not older than the cutoff, as they were. */
  function Pruned(receipts: map<string, Receipt>, cutoff: int): (kept: map<string, Receipt>)
    ensures forall r :: r in receipts && r !in kept <==> r in receipts && receipts[r].updatedAt < cutoff
    ensures kept.Keys <= receipts.Keys && forall r :: r in kept ==> kept[r] == receipts[r]
  {
    map r | r in receipts && receipts[r].updatedAt >= cutoff :: receipts[r]
  }

  class InteractionService {
    const receiptTtl: nat
    var states: map<string, State>
    var receipts: map<string, Receipt>
    var pressed: seq<Key>
    ghost var shown: map<string, seq<Option<Menu>>>

    ghost predicate Valid()
      reads this
    {
      Counts(states, shown)
    }

    constructor (receiptTtl: nat)
      ensures Valid() && shown == map[] && pressed == []
    {
      this.receiptTtl := receiptTtl;
      states, receipts, pressed, shown := map[], map[], [], map[];
    }

    /** Look at a terminal: the generation grows exactly when what it shows has changed. */
    method Snapshot(session: string, look: Look) returns (current: Option<PublicId>)
      requires Valid()
      modifies this`states, this`shown
      ensures Valid() && shown == Looked(old(shown), session, look) && current == CurrentId(old(shown), session, look)
      ensures forall s :: s in old(states) ==> s in states && states[s].generation >= old(states)[s].generation
      ensures forall s :: s in old(states) ==>
        (states[s].generation > old(states)[s].generation <==> states[s].seen != old(states)[s].seen)
    {
      hide Counts, Changes;
      if look.NoSession? {
        return None;
      }
      var generation := if session !in states then 1
                        else if states[session].seen == look.menu then states[session].generation
                        else states[session].generation + 1;
      CountsOneMore(states, shown, session, look.menu, generation);
      states := states[session := State(look.menu, generation)];
      shown := Looked(shown, session, look);
      return if look.menu.None? then None else Some(InteractionId(session, generation, look.menu.value));
    }

    /** Poll until another menu, or none, is shown; a change first seen when time is up does not count. */
    method WaitForTransition(session: string, prior: PublicId, polls: seq<Look>)
      returns (latest: Option<PublicId>, changed: bool, ghost used: int)
      requires Valid() && polls != []
      modifies this`states, this`shown
      ensures Valid() && Waited(old(shown), session, prior, polls, used, Answer(latest, changed))
      ensures shown == LookedAll(old(shown), session, polls[..used])
    {
      hide Counts, CurrentId, Looked;
      latest := Snapshot(session, polls[0]);
      used := 1;
      assert polls[..1][..0] == [] && polls[..1][0] == polls[0];
      for i := 1 to |polls|
        invariant Valid() && used == i && shown == LookedAll(old(shown), session, polls[..i])
        invariant latest == CurrentId(LookedAll(old(shown), session, polls[..i - 1]), session, polls[i - 1])
        invariant forall k :: 0 <= k < i - 1 ==>
          CurrentId(LookedAll(old(shown), session, polls[..k]), session, polls[k]) == Some(prior)
      {
        if latest != Some(prior) {
          return latest, true, used;
        }
        latest := Snapshot(session, polls[i]);
        assert polls[..i + 1][..i] == polls[..i] && polls[..i + 1][i] == polls[i];
        used := i + 1;
      }
      return latest, false, used;
    }

    method PressAll(keys: seq<Key>)
      modifies this`pressed
      ensures pressed == old(pressed) + keys
    {
      for i := 0 to |keys|
        invariant pressed == old(pressed) + keys[..i]
      {
        pressed := pressed + [keys[i]];
      }
    }

    /**
     * A response from the browser. Keys are pressed only for the id of the menu on the screen
     * at that moment, never for an id issued before any change of it, and only once for each
     * request id that was answered.
     */
    method Respond(session: string, interaction: Option<PublicId>, action: string, option: Option<PublicId>,
                   requestId: string,
                   look: Look, polls: seq<Look>, now: int, later: int) returns (outcome: Outcome)
      requires Valid() && polls != []
      modifies this
      ensures Valid()
      ensures outcome == InvalidRequest <==> !ValidRequestId(requestId)
      ensures outcome == Missing <==> ValidRequestId(requestId) && (interaction.None? || (action == "" && option.None?))
      ensures pressed == old(pressed) || (interaction.Some? && interaction == CurrentId(old(shown), session, look)
        && KeysFor(interaction.value.menu, interaction.value, action, option).Press?
        && pressed == old(pressed) + KeysFor(interaction.value.menu, interaction.value, action, option).keys)
      ensures requestId in Pruned(old(receipts), now - receiptTtl) ==> pressed == old(pressed) && shown == old(shown)
      ensures outcome.Done? && !outcome.duplicate ==>
        pressed != old(pressed) && requestId in receipts && receipts[requestId].answer == outcome.answer
      ensures outcome.Done? && outcome.duplicate ==> interaction.Some? && requestId in old(receipts)
      ensures outcome.Done? && outcome.duplicate ==>
        outcome.answer == old(receipts)[requestId].answer && old(receipts)[requestId].session == session
      ensures outcome.Done? && outcome.duplicate ==>
        old(receipts)[requestId].identity == Sha256(interaction.value, action, option)
      ensures outcome.Refused? || outcome == NotCurrent || outcome == RequestReused ==> pressed == old(pressed)
      // Past the first checks, the receipt, the menu on the screen and the plan decide, in this order.
      ensures outcome != InvalidRequest && outcome != Missing ==>
        var kept := Pruned(old(receipts), now - receiptTtl);
        if requestId in kept then
          outcome == if kept[requestId].session == session && kept[requestId].identity == Sha256(interaction.value, action, option)
                     then Done(kept[requestId].answer, true) else RequestReused
        else if interaction != CurrentId(old(shown), session, look) then outcome == NotCurrent
        else (outcome.Refused? <==> KeysFor(interaction.value.menu, interaction.value, action, option).Refuse?)
      ensures pressed != old(pressed) && option.None? ==>
        && interaction.Some? && interaction.value.InteractionId? && action in interaction.value.menu.actions
        && (action, pressed) in {("previous", old(pressed) + [Up]), ("next", old(pressed) + [Down]),
                                 ("choose", old(pressed) + [Enter]), ("cancel", old(pressed) + [Escape])}
      ensures outcome.Refused? && option.None? ==>
        outcome.refusal == UnsupportedAction
          && !(action in {"previous", "next", "choose", "cancel"} && action in interaction.value.menu.actions)
      ensures outcome.Refused? && option.Some? ==>
        var options := interaction.value.menu.options;
        match outcome.refusal
        case UnknownOption => !Names(option.value, interaction.value, options)
        case Disabled => Names(option.value, interaction.value, options) && options[option.value.index].disabled
        case NoSelection => forall o :: o in options ==> !o.selected
        case UnsupportedAction => false
      ensures outcome == NotCurrent ==> interaction != CurrentId(old(shown), session, look)
      ensures outcome.Refused? ==>
        interaction.Some? && interaction.value.InteractionId?
          && KeysFor(interaction.value.menu, interaction.value, action, option) == Refuse(outcome.refusal)
      ensures outcome == NotApplied ==> pressed != old(pressed) && (option.Some? || action in {"choose", "cancel"})
      ensures outcome.Done? && !outcome.duplicate ==>
        interaction.Some?
          && exists used :: Waited(Looked(old(shown), session, look), session, interaction.value, polls, used, outcome.answer)
      ensures outcome.Done? && !outcome.duplicate && (option.Some? || action in {"choose", "cancel"}) ==>
        outcome.answer.changed
      ensures pressed != old(pressed) ==>
        look.Screen? && StillShown(Shown(old(shown), session), look.menu, session, interaction.value)
    {
      hide Counts, StillShown, KeysFor, ValidRequestId, Waited;
      if !ValidRequestId(requestId) {
        return InvalidRequest;
      }
      if interaction.None? || (action == "" && option.None?) {
        return Missing;
      }
      receipts := Pruned(receipts, now - receiptTtl);
      var identity := Sha256(interaction.value, action, option);
      if requestId in receipts {
        var receipt := receipts[requestId];
        if receipt.session != session || receipt.identity != identity {
          return RequestReused;
        }
        receipts := receipts[requestId := receipt.(updatedAt := now)];
        return Done(receipt.answer, true);
      }
      ghost var before := shown;
      var current := Snapshot(session, look);
      if current != interaction {
        return NotCurrent;
      }
      OldIdsAreStale(before, session, look, interaction.value);
      var menu := look.menu.value;
      PlanMeans(menu, interaction.value, action, option);
      match KeysFor(menu, interaction.value, action, option) {
        case Refuse(refusal) => return Refused(refusal);
        case Press(keys) =>
          PlansPressSomething(menu, interaction.value, action, option);
          PressAll(keys);
          var latest, changed, used := WaitForTransition(session, interaction.value, polls);
          if !changed && (option.Some? || action in {"choose", "cancel"}) {
            return NotApplied;
          }
          receipts := receipts[requestId := Receipt(session, identity, Answer(latest, changed), later)];
          return Done(Answer(latest, changed), false);
      }
    }
  }

  /** Why a plan is refused, and the one key of each action. */
  lemma PlanMeans(menu: Menu, interaction: PublicId, action: string, option: Option<PublicId>)
    ensures var plan := KeysFor(menu, interaction, action, option);
      match plan
      case Press(keys) => option.None? ==>
        action in menu.actions && (action, keys) in {("previous", [Up]), ("next", [Down]), ("choose", [Enter]), ("cancel", [Escape])}
      case Refuse(UnknownOption) => option.Some? && !Names(option.value, interaction, menu.options)
      case Refuse(Disabled) =>
        option.Some? && Names(option.value, interaction, menu.options) && menu.options[option.value.index].disabled
      case Refuse(NoSelection) => option.Some? && forall o :: o in menu.options ==> !o.selected
      case Refuse(UnsupportedAction) =>
        option.None? && !(action in {"previous", "next", "choose", "cancel"} && action in menu.actions)
  {
  }

  lemma PlansPressSomething(menu: Menu, interaction: PublicId, action: string, option: Option<PublicId>)
    requires KeysFor(menu, interaction, action, option).Press?
    ensures KeysFor(menu, interaction, action, option).keys != []
  {
  }

  /** Since any issue of the id, the session has shown nothing else. */
  ghost predicate StillShown(shown: seq<Option<Menu>>, menu: Option<Menu>, session: string, id: PublicId) {
    forall i :: 0 <= i < |shown| && IdAt(session, shown, i) == Some(id) ==> Unchanged(shown + [menu], i, |shown|)
  }

  /** An id issued earlier is the id of the present screen only if nothing shown since was different. */
  lemma OldIdsAreStale(shown: map<string, seq<Option<Menu>>>, session: string, look: Look, id: PublicId)
    requires CurrentId(shown, session, look) == Some(id)
    ensures look.Screen? && StillShown(Shown(shown, session), look.menu, session, id)
  {
    var before := Shown(shown, session);
    var all := before + [look.menu];
    forall i | 0 <= i < |before| && IdAt(session, before, i) == Some(id) ensures Unchanged(all, i, |before|) {
      assert all[..i + 1] == before[..i + 1] && all[i] == before[i];
      IdsExpire(session, all, i, |before|);
    }
  }

  lemma CountsOneMore(states: map<string, State>, shown: map<string, seq<Option<Menu>>>, session: string,
                      menu: Option<Menu>, generation: nat)
    requires Counts(states, shown)
    requires generation == if session !in states then 1 else if states[session].seen == menu
      then states[session].generation else states[session].generation + 1
    ensures Counts(states[session := State(menu, generation)], Looked(shown, session, Screen(menu)))
    ensures generation == 1 + Changes((Shown(shown, session) + [menu])[..|Shown(shown, session)| + 1])
  {
    var before := Shown(shown, session);
    var all := before + [menu];
    assert all[..|all| - 1] == before && all[..|all|] == all;
    assert session in states ==> before != [] && all[|all| - 2] == before[|before| - 1];
    assert Changes(all) == if session !in states || states[session].seen == menu then Changes(before) else Changes(before) + 1;
    hide Changes;
  }
}
