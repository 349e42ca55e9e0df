/** The alerts of src/components/alerts/alerts-provider.tsx: alert records
    with their defaults, error alerts made from server messages, and the
    reducer over the shown alerts and the set of dismissed ids. Icons,
    close callbacks and React nodes are not modelled; `content` is text. */
module Alerts {
  import opened Wrappers
  import opened Strs

  /** At most this many alerts are kept. */
  const AlertLimit: nat := 100

  datatype AlertType = Default | Info | Error | Warning
  datatype AlertSize = Popup | Dialog

  /** `IAlert`. */
  datatype Alert = Alert(id: string, title: string, content: string, kind: AlertType, size: AlertSize)

  /** `IMakeAlertProps`: every field may be left out. */
  datatype AlertProps = AlertProps(id: Option<string>, title: Option<string>, content: Option<string>,
                                   kind: Option<AlertType>, size: Option<AlertSize>)

  const NoProps := AlertProps(None, None, None, None, None)

  /** `makeAlert`: a fresh id, an empty title and content, type `default`
      and size `popup`, each replaced by the field given. */
  function MakeAlert(props: AlertProps, freshId: string): (r: Alert) {
    Alert(props.id.GetOr(freshId), props.title.GetOr(""), props.content.GetOr(""),
          props.kind.GetOr(Default), props.size.GetOr(Popup))
  }

  /** The props naming every field of an alert. */
  function PropsOf(a: Alert): AlertProps {
    AlertProps(Some(a.id), Some(a.title), Some(a.content), Some(a.kind), Some(a.size))
  }

  /** Without props the defaults apply; with every field given, the fields
      win over the defaults and the fresh id is not used. */
  lemma MakeAlertDefaults(a: Alert, freshId: string)
    ensures MakeAlert(NoProps, freshId) == Alert(freshId, "", "", Default, Popup)
    ensures MakeAlert(PropsOf(a), freshId) == a
  {
  }

  /** `makeErrorAlert`: the alert `makeAlert` makes from the same props,
      except that its type is always `error`. */
  function MakeErrorAlert(props: AlertProps, freshId: string): (r: Alert)
    ensures r == MakeAlert(props, freshId).(kind := Error)
  {
    MakeAlert(props.(kind := Some(Error)), freshId)
  }

  /** Titled error alert with the given content. */
  function TitledError(title: string, content: Option<string>, freshId: string): (r: Alert)
    ensures r.kind == Error && r.id == freshId && r.size == Popup && r.title == title
  {
    MakeErrorAlert(AlertProps(None, Some(title), content, None, None), freshId)
  }

  /** The server messages with a fixed explanation. */
  function KnownMessage(message: string, cap: string -> string, freshId: string): (r: Option<Alert>)
    ensures r.Some? ==> r.value.kind == Error && r.value.id == freshId && r.value.size == Popup
  {
    if message == "invalid name" then
      Some(TitledError(cap(message), Some("Please enter a valid name. This is optional so it can be left blank."), freshId))
    else if message == "invalid username" then
      Some(TitledError(cap(message), Some("Please enter a valid username, which can also be an email address."), freshId))
    else if message == "invalid email address" then
      Some(TitledError(cap(message), Some("Please enter a valid email address."), freshId))
    else if message == "invalid password" then
      Some(TitledError(cap(message), Some("Your password can contain letters, numbers and @$!%*#?&."), freshId))
    else if message == "passwords do not match" then
      Some(TitledError(cap(message), Some("Please check you have entered your password correctly."), freshId))
    else if message == "user does not exist" then
      Some(TitledError(cap(message), Some("Please check you have entered the correct username or email address."), freshId))
    else if message == "invalid or expired jwt" then
      Some(TitledError("Your reset link has expired", None, freshId))
    else None
  }

  /** `makeErrorAlertFromResp`; `cap` is `capitalizeSentence`. Other
      messages are split on ':': the first piece is the title and the
      second, followed by '.', the content. */
  function MakeErrorAlertFromResp(message: string, cap: string -> string, freshId: string): (r: Alert)
    ensures r.kind == Error && r.id == freshId && r.size == Popup
  {
    var known := KnownMessage(message, cap, freshId);
    if known.Some? then known.value
    else
      var tokens := Split(message, ':');
      if |tokens| > 1 then TitledError(cap(tokens[0]), Some(cap(tokens[1]) + "."), freshId)
      else TitledError(cap(tokens[0]), None, freshId)
  }

  /** For a message without a fixed explanation: with a ':' the title is
      the text before the first ':' and the content the text after it, up
      to the next ':', followed by '.'; without one the whole message is
      the title and the content is empty. */
  lemma ErrorAlertFromRespParts(message: string, cap: string -> string, freshId: string)
    requires KnownMessage(message, cap, freshId).None?
    ensures var r := MakeErrorAlertFromResp(message, cap, freshId);
            var i := IndexOf(message, ':');
            (i < 0 ==> r.title == cap(message) && r.content == "") &&
            (i >= 0 ==> r.title == cap(message[..i]) &&
                        r.content == cap(Split(message[i + 1..], ':')[0]) + ".")
  {
  }

  /** `AlertState`. */
  datatype AlertState = AlertState(alerts: seq<Alert>, removeIds: set<string>)

  /** `IAlertAction`; `Unknown` stands for any other action type. */
  datatype AlertAction = SetAlert(alert: Alert) | AddAlert(alert: Alert) | RemoveAlert(id: string)
                       | ClearAlerts | Unknown

  /** `alertReducer`. `remove` only records the id as dismissed; the
      alert stays in the list. */
  function AlertReducer(state: AlertState, action: AlertAction): (r: AlertState)
    ensures action.SetAlert? ==> r.alerts == [action.alert]
    ensures action.AddAlert? ==>
              |r.alerts| == if |state.alerts| < AlertLimit then |state.alerts| + 1 else AlertLimit
    ensures action.AddAlert? ==>
              r.alerts[0] == action.alert &&
              forall i | 1 <= i < |r.alerts| :: r.alerts[i] == state.alerts[i - 1]
    ensures action.ClearAlerts? ==> r.alerts == []
    ensures action.RemoveAlert? || action.Unknown? ==> r.alerts == state.alerts
    ensures action.RemoveAlert? ==> r.removeIds == state.removeIds + {action.id}
    ensures !action.RemoveAlert? ==> r.removeIds == state.removeIds
  {
    match action
    case SetAlert(a) => state.(alerts := [a])
    case AddAlert(a) =>
      var all := [a] + state.alerts;
      state.(alerts := all[..if |all| < AlertLimit then |all| else AlertLimit])
    case ClearAlerts => state.(alerts := [])
    case RemoveAlert(id) => state.(removeIds := state.removeIds + {id})
    case Unknown => state
  }

  /** The state after dispatching the actions in order. */
  function Run(state: AlertState, actions: seq<AlertAction>): AlertState
    decreases |actions|
  {
    if actions == [] then state else Run(AlertReducer(state, actions[0]), actions[1..])
  }

  /** Along any run the list never exceeds the limit, dismissed ids stay
      dismissed, and an id is dismissed only by a `remove` naming it. */
  lemma {:induction false} RunInvariants(state: AlertState, actions: seq<AlertAction>)
    requires |state.alerts| <= AlertLimit
    ensures var r := Run(state, actions);
            |r.alerts| <= AlertLimit && state.removeIds <= r.removeIds &&
            forall id | id in r.removeIds && id !in state.removeIds ::
              exists k | 0 <= k < |actions| :: actions[k] == RemoveAlert(id)
    decreases |actions|
  {
    if actions != [] {
      var next := AlertReducer(state, actions[0]);
      RunInvariants(next, actions[1..]);
      var r := Run(state, actions);
      forall id | id in r.removeIds && id !in state.removeIds
        ensures exists k | 0 <= k < |actions| :: actions[k] == RemoveAlert(id)
      {
        if id in next.removeIds {
          assert actions[0] == RemoveAlert(id);
        } else {
          var k :| 0 <= k < |actions[1..]| && actions[1..][k] == RemoveAlert(id);
          assert actions[k + 1] == RemoveAlert(id);
        }
      }
    }
  }
}
