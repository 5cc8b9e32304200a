/** Tapping a button of an alert: the one lookup that takes the first
    match instead of insisting on a unique one. */
module Alerts {
  import opened ArmoryErrors
  import opened Locator

  /** An alert action: its optional title, whether it is enabled, and its handler. */
  datatype AlertAction = AlertAction(title: Option<string>, isEnabled: bool, handler: Handler)

  /** An alert controller: its actions, the handlers run so far (oldest
      first) and whether it has been dismissed. */
  class AlertController {
    var actions: seq<AlertAction>
    var handled: seq<Handler>
    var isDismissed: bool

    /** tapButton(withTitle:fromAlertController:): no action with the title is
        `titleLookupFailed`; otherwise the FIRST action with the title is
        taken; if it is disabled nothing happens, else its handler runs once
        and the alert is dismissed. */
    method TapButton(title: string) returns (r: Outcome)
      modifies this`handled, this`isDismissed
      ensures r == Fail(TitleLookupFailed) <==> forall j :: 0 <= j < |actions| ==> actions[j].title != Some(title)
      ensures r == Pass || r == Fail(TitleLookupFailed)
      ensures r.Fail? ==> handled == old(handled) && isDismissed == old(isDismissed)
      ensures r == Pass ==>
                exists i :: 0 <= i < |actions| && actions[i].title == Some(title) &&
                  (forall j :: 0 <= j < i ==> actions[j].title != Some(title)) &&
                  if actions[i].isEnabled then handled == old(handled) + [actions[i].handler] && isDismissed
                  else handled == old(handled) && isDismissed == old(isDismissed)
    {
      var found := FirstTitled(TitledItems(actions, (a: AlertAction) => a.title), title);
      if found.Err? {
        return Fail(found.error);
      }
      var action := actions[found.value];
      if !action.isEnabled {
        return Pass;
      }
      handled := handled + [action.handler];
      isDismissed := true;
      r := Pass;
    }
  }

  /** Two enabled actions titled "OK": tapping "OK" runs the first one's
      handler only. */
  method DuplicateTitleExample(first: Handler, second: Handler)
  {
    var alert := new AlertController;
    alert.actions := [AlertAction(Some("OK"), true, first), AlertAction(Some("OK"), true, second)];
    alert.handled := [];
    alert.isDismissed := false;
    var r := alert.TapButton("OK");
    assert alert.actions[0].title == Some("OK");
    assert r == Pass && alert.handled == [first] && alert.isDismissed;
  }
}
