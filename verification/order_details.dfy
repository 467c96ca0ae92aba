/** The order-details page (components/OrderDetailsClient.tsx): the client's status
    state, what one click on a status button does to it, which buttons are enabled,
    the banner that reports the outcome, and the cells of the items table. */
module OrderDetails {
  import opened Basics
  import opened Text
  import opened Seqs
  import opened OrderModel
  import opened OrderActions
  import opened PageControls
  import opened Calendar

  /** The page's React state: the status shown, whether an update is in flight, and the
      banner message ("" hides the banner). */
  datatype DetailsState = DetailsState(currentStatus: string, isUpdating: bool, message: string)

  /** The page as first rendered for an order. */
  function Initial(order: Order): (st: DetailsState)
    ensures ParseStatus(st.currentStatus) == Some(order.status)
    ensures !st.isUpdating && st.message == ""
  {
    StatusNamesRoundTrip(order.status);
    DetailsState(StatusName(order.status), false, "")
  }

  /** What `updateOrderStatus` hands back to the page: whether it succeeded and its
      `error` text ("" when the field is absent). */
  datatype ActionResult = ActionResult(success: bool, error: string)

  /** The reply of the modelled server action, as the page receives it. */
  function ResultOf(reply: StatusReply): (a: ActionResult)
    ensures a.success <==> reply.Updated?
    ensures reply.Refused? ==> a.error == reply.error
  {
    match reply
    case Updated(_, _) => ActionResult(true, "")
    case Refused(e) => ActionResult(false, e)
  }

  /** How the awaited `updateOrderStatus` call ends: with the action's answer, or
      rejected (a transport or server failure the action's own `catch` never sees). */
  datatype CallOutcome = Answered(result: ActionResult) | Rejected

  /** The call ended with an answer reporting success. */
  predicate Succeeded(outcome: CallOutcome) {
    outcome.Answered? && outcome.result.success
  }

  /** One click: the state afterwards, whether the server was called, and whether the
      server refused the update. */
  datatype Step = Step(state: DetailsState, called: bool, refused: bool)

  /** `handleStatusUpdate` as written (the message-clearing timer is left out): choosing
      the status already shown does nothing and calls nothing; otherwise the server is
      called, a success switches the shown status, a failure keeps it and shows the
      error. There is no `try`/`finally`: when the call is rejected the handler stops at
      the `await`, so `isUpdating` stays set and the cleared message stays empty. */
  function HandleStatusUpdate(st: DetailsState, newStatus: string, outcome: CallOutcome): (r: Step)
    ensures newStatus == st.currentStatus <==> !r.called
    ensures !r.called ==> r.state == st && !r.refused
    ensures r.called ==> (r.state.isUpdating <==> outcome.Rejected?)
    ensures r.called ==> (r.refused <==> outcome.Answered? && !outcome.result.success)
    ensures r.called && Succeeded(outcome) ==>
      r.state.currentStatus == newStatus && r.state.message == "Order status updated to " + newStatus
    ensures r.called && !Succeeded(outcome) ==> r.state.currentStatus == st.currentStatus
    ensures r.called && outcome.Answered? && !outcome.result.success ==>
      && r.state.message == (if outcome.result.error != "" then outcome.result.error else "Failed to update status")
      && r.state.message != ""
    ensures r.called && outcome.Rejected? ==> r.state.message == ""
  {
    if newStatus == st.currentStatus then Step(st, false, false)
    else
      match outcome
      case Rejected => Step(DetailsState(st.currentStatus, true, ""), true, false)
      case Answered(result) =>
        if result.success then
          Step(DetailsState(newStatus, false, "Order status updated to " + newStatus), true, false)
        else
          Step(DetailsState(st.currentStatus, false,
                            if result.error != "" then result.error else "Failed to update status"),
               true, true)
  }

  /** As written, a rejected call leaves the page locked: `isUpdating` stays set, so
      every status button is disabled until the page is reloaded, and no message says why. */
  lemma RejectedCallLocksButtons(st: DetailsState, newStatus: string)
    requires newStatus != st.currentStatus
    ensures var step := HandleStatusUpdate(st, newStatus, Rejected);
      && step.called && step.state.message == ""
      && forall i :: 0 <= i < |StatusButtons()| ==> ButtonDisabled(step.state, StatusButtons()[i])
  {
  }

  /** `handleStatusUpdate` with the `await` inside `try`/`catch`/`finally`: a rejected
      call is reported like a refusal without a message, and `isUpdating` is always
      cleared. For an answered call it is the handler as written. */
  function GuardedStatusUpdate(st: DetailsState, newStatus: string, outcome: CallOutcome): (r: Step)
    ensures outcome.Answered? ==> r == HandleStatusUpdate(st, newStatus, outcome)
    ensures newStatus == st.currentStatus <==> !r.called
    ensures !r.called ==> r.state == st && !r.refused
    ensures r.called ==> !r.state.isUpdating && r.state.message != ""
    ensures r.called ==> (r.refused <==> !Succeeded(outcome))
    ensures r.called && outcome.Rejected? ==>
      r.state.currentStatus == st.currentStatus && r.state.message == "Failed to update status"
  {
    match outcome
    case Answered(_) => HandleStatusUpdate(st, newStatus, outcome)
    case Rejected =>
      if newStatus == st.currentStatus then Step(st, false, false)
      else Step(DetailsState(st.currentStatus, false, "Failed to update status"), true, true)
  }

  /** With the guard, a click never locks the page: afterwards only the button of the
      status shown is disabled, whatever the call's outcome. */
  lemma GuardedCallReleasesButtons(st: DetailsState, newStatus: string, outcome: CallOutcome, i: nat)
    requires !st.isUpdating && i < |StatusButtons()|
    ensures var step := GuardedStatusUpdate(st, newStatus, outcome);
      !step.state.isUpdating &&
      (ButtonDisabled(step.state, StatusButtons()[i]) <==> ParseStatus(step.state.currentStatus) == Some(AllStatuses[i]))
  {
    EnabledButtonsCallServer(GuardedStatusUpdate(st, newStatus, outcome).state, i, outcome);
  }

  /** The page and the store agree: when the page shows the stored status of the order
      before a click, it shows the stored status after the click and the server's
      reply, whatever the requested status, and on success it shows the server's message. */
  lemma ClickKeepsPageInSync(store: seq<Order>, k: nat, st: DetailsState, newStatus: string)
    requires UniqueIds(store) && k < |store|
    requires st.currentStatus == StatusName(store[k].status)
    ensures var up := UpdateOrderStatus(store, store[k].id, newStatus);
      var step := GuardedStatusUpdate(st, newStatus, Answered(ResultOf(up.reply)));
      && step.state.currentStatus == StatusName(up.orders[k].status)
      && (step.called && up.reply.Updated? ==> step.state.message == up.reply.message)
      && (step.refused <==> step.called && up.reply.Refused?)
  {
    var up := UpdateOrderStatus(store, store[k].id, newStatus);
    if ParseStatus(newStatus).Some? {
      assert up.reply.Updated? && up.orders[k] == up.reply.order;
    }
  }

  /** `disabled={isUpdating || status === currentStatus}`. */
  predicate ButtonDisabled(st: DetailsState, status: string) {
    st.isUpdating || status == st.currentStatus
  }

  /** The buttons, one per status name, in the enum's order. */
  function StatusButtons(): (r: seq<string>)
    ensures |r| == |AllStatuses| == 5
    ensures forall i :: 0 <= i < |r| ==> ParseStatus(r[i]) == Some(AllStatuses[i])
  {
    seq(|AllStatuses|, i requires 0 <= i < |AllStatuses| => StatusName(AllStatuses[i]))
  }

  /** A click on an enabled button always reaches the server, and when no update is in
      flight the only disabled button is the one of the status shown, if it is a status
      at all. */
  lemma EnabledButtonsCallServer(st: DetailsState, i: nat, outcome: CallOutcome)
    requires i < |StatusButtons()|
    ensures !ButtonDisabled(st, StatusButtons()[i]) ==> GuardedStatusUpdate(st, StatusButtons()[i], outcome).called
    ensures !st.isUpdating ==>
      (ButtonDisabled(st, StatusButtons()[i]) <==> ParseStatus(st.currentStatus) == Some(AllStatuses[i]))
  {
    var b := StatusButtons();
    if !st.isUpdating && ParseStatus(st.currentStatus) == Some(AllStatuses[i]) {
      assert StatusName(AllStatuses[i]) == st.currentStatus;
      assert ParseStatus(b[i]) == Some(AllStatuses[i]);
    }
  }

  /** Every status has exactly one button. */
  lemma OneButtonPerStatus(s: Status)
    ensures exists i :: 0 <= i < |StatusButtons()| && StatusButtons()[i] == StatusName(s)
    ensures forall i, j :: 0 <= i < j < |StatusButtons()| ==> StatusButtons()[i] != StatusButtons()[j]
  {
    var b := StatusButtons();
    StatusNamesRoundTrip(s);
    var i :| 0 <= i < |AllStatuses| && AllStatuses[i] == s;
    assert b[i] == StatusName(s);
    forall i, j | 0 <= i < j < |b|
      ensures b[i] != b[j]
    {
      assert ParseStatus(b[i]) == Some(AllStatuses[i]) && ParseStatus(b[j]) == Some(AllStatuses[j]);
    }
  }

  /** Upper-cases one ASCII letter, as `toUpperCase` does on that range. */
  function UpperChar(c: char): (u: char)
    ensures 'a' <= c <= 'z' ==> u as int == c as int - 32 && IsUpper(u)
    ensures !('a' <= c <= 'z') ==> u == c
    ensures LowerChar(u) == (if IsUpper(c) then LowerChar(c) else c)
  {
    if 'a' <= c <= 'z' then (c as int - 32) as char else c
  }

  /** `status.charAt(0).toUpperCase() + status.slice(1)`. */
  function ButtonLabel(status: string): (text: string)
    ensures |text| == |status|
    ensures |status| > 0 ==> text[0] == UpperChar(status[0]) && text[1..] == status[1..]
  {
    if |status| == 0 then "" else [UpperChar(status[0])] + status[1..]
  }

  /** Lower-casing a button's label gives back its status name. */
  lemma LabelLowersToName(s: Status)
    ensures ToLower(ButtonLabel(StatusName(s))) == StatusName(s)
  {
    var name := StatusName(s);
    var text := ButtonLabel(name);
    assert forall k :: 0 <= k < |name| ==> !IsUpper(name[k]);
    assert forall k :: 1 <= k < |text| ==> text[k] == name[k];
  }

  /** The detail page's colour table: the list page's colours plus a border. */
  function DetailColor(s: Status): string {
    match s
    case Pending => "bg-yellow-100 text-yellow-800 border-yellow-300"
    case Processing => "bg-blue-100 text-blue-800 border-blue-300"
    case Shipped => "bg-purple-100 text-purple-800 border-purple-300"
    case Delivered => "bg-green-100 text-green-800 border-green-300"
    case Cancelled => "bg-red-100 text-red-800 border-red-300"
  }

  const DetailFallbackColor := "bg-gray-100 text-gray-800 border-gray-300"

  /** The detail page's `getStatusColor`: the table's entry, gray for anything else. */
  function DetailStatusColor(status: string): (c: string)
    ensures ParseStatus(status).Some? ==> c == DetailColor(ParseStatus(status).value)
  {
    match ParseStatus(status)
    case Some(s) => DetailColor(s)
    case None => DetailFallbackColor
  }

  lemma DetailColorHue(s: Status)
    ensures HueStatus(DetailColor(s)) == Some(s)
  {
    var c := DetailColor(s);
    assert c[..6] == KnownColor(s)[..6];
    KnownColorHue(s);
  }

  /** As on the list page: gray marks exactly the strings outside the enum, distinct
      statuses get distinct colours, and each status keeps the hue of its list colour. */
  lemma DetailColorsDistinguish(status: string)
    ensures DetailStatusColor(status) == DetailFallbackColor <==> ParseStatus(status).None?
    ensures forall a: Status, b: Status :: DetailColor(a) == DetailColor(b) ==> a == b
    ensures HueStatus(DetailStatusColor(status)) == HueStatus(StatusColor(status)) == ParseStatus(status)
  {
    assert HueStatus(DetailFallbackColor) == None && HueStatus(FallbackColor) == None;
    if ParseStatus(status).Some? {
      DetailColorHue(ParseStatus(status).value);
      KnownColorHue(ParseStatus(status).value);
    }
    forall a: Status, b: Status | DetailColor(a) == DetailColor(b)
      ensures a == b
    {
      DetailColorHue(a);
      DetailColorHue(b);
    }
  }

  // ---------------------------------------------------------------------------
  // The banner
  // ---------------------------------------------------------------------------

  /** The banner as written: red when the message contains "Failed" or "error". */
  predicate BannerRedAsWritten(message: string) {
    Includes(message, "Failed") || Includes(message, "error")
  }

  /** "Order not found" contains neither word, so a refused update whose order has
      disappeared is reported in green, as a success would be. */
  lemma NotFoundShownGreen(st: DetailsState, newStatus: string)
    requires newStatus != st.currentStatus
    ensures var step := HandleStatusUpdate(st, newStatus, Answered(ActionResult(false, "Order not found")));
      step.refused && !BannerRedAsWritten(step.state.message)
  {
    var m := "Order not found";
    forall at | 0 <= at && at + 6 <= |m|
      ensures !OccursAt(m, "Failed", at)
    {
      assert m[at..at + 6][0] == m[at] != 'F';
    }
    forall at | 0 <= at && at + 5 <= |m|
      ensures !OccursAt(m, "error", at)
    {
      var w := m[at..at + 5];
      assert w[0] == m[at] && w[2] == m[at + 2];
      if m[at] == 'e' {
        assert at == 3 && m[at + 2] == ' ';
      }
    }
  }

  /** The banner with its colour taken from the outcome: red exactly when the server
      refused the update. */
  predicate BannerRed(step: Step) {
    step.refused
  }

  /** The corrected banner is red after every refused or rejected update and green
      after every accepted one, whatever the server's wording. */
  lemma BannerMatchesOutcome(st: DetailsState, newStatus: string, outcome: CallOutcome)
    requires newStatus != st.currentStatus
    ensures var step := GuardedStatusUpdate(st, newStatus, outcome);
      && step.state.message != ""
      && (BannerRed(step) <==> !Succeeded(outcome))
  {
  }

  // ---------------------------------------------------------------------------
  // The items table
  // ---------------------------------------------------------------------------

  /** `item.quantity * item.price`: the line's subtotal. */
  function LineSubtotal(item: OrderItem): (r: real)
    ensures item.quantity >= 0.0 && item.price >= 0.0 ==> r >= 0.0
    ensures r == 0.0 <==> item.quantity == 0.0 || item.price == 0.0
  {
    item.quantity * item.price
  }

  /** The footer shows `totalAmount`, not the sum of the subtotal column: an order the
      schema accepts can show lines adding up to 10 over a total of 1. */
  lemma FooterIsStoredTotal()
    ensures var items := [OrderItem(None, "Mug", 2.0, 5.0)];
      SumOf(items, LineSubtotal) == 10.0 &&
      InsertOrder([], OrderDraft(Some("ORD-1"), Some("a@x.com"), items, Some(1.0), None),
                  Timestamp(0, 1970, 0)).Ok?
  {
    var items := [OrderItem(None, "Mug", 2.0, 5.0)];
    assert items[..0] == [];
    TotalNotTiedToItems();
  }
}
