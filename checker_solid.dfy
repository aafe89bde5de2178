/**
 * checker_solid.py: the single-file variant built on `requests`. Its
 * `NumberChecker` looks for country 137 at a price of at most 12 (its
 * docstring says 22 and 4) and catches only `requests.RequestException` and
 * `ValueError`; any other exception escapes `get_numbers`. Its copy of
 * `BotHandler` is `BotHandler.Handler` driven with the `Requests` backend.
 *
 * With `requests`, connection errors, timeouts and `raise_for_status`
 * failures are all `RequestException`s, and so is the `JSONDecodeError` that
 * `r.json()` raises (it derives from both `RequestException` and
 * `ValueError`, and the first matching handler wins).
 */
module SolidChecker {
  import opened Http
  import opened Outbox
  import opened Offers
  import opened Balance

  const Country: int := 137
  const Ceiling: real := 12.0

  /**
   * What one call of `get_numbers` does for each response, including the
   * cases where an exception escapes: a call that returns has sent one or two
   * messages, and a call that raises has sent none.
   */
  function Numbers(f: Transport<Body>): (r: Report)
    ensures r.exit.Returned? ==> 1 <= |r.sent| <= 2
    ensures r.exit.Raised? ==> r.sent == []
  {
    match f
    case ConnErr => Fallback(RequestFailed)
    case Timeout => Fallback(RequestFailed)
    case OtherErr => Report(Raised, [])
    case Delivered(statusOk, body) =>
      if !statusOk then Fallback(RequestFailed)
      else
        match body
        case NotJson(_) => Fallback(RequestFailed)
        case BadJson => Fallback(RequestFailed)
        case Json(payload, _) =>
          match ScanOf(payload, Country, Ceiling)
          case Hit(count, price) => Report(Returned(true), [Available(count, price)])
          case Miss => Report(Returned(false), [NoNumbers])
          case Crash => Report(Raised, [])
  }

  /** `get_numbers`: one availability check; `Raised` is an exception escaping to the caller. */
  method GetNumbers(f: Transport<Body>, chat: Chat) returns (exit: Exit)
    modifies chat
    ensures exit == Numbers(f).exit
    ensures chat.sent == old(chat.sent) + Numbers(f).sent
  {
    match f {
      case Delivered(statusOk, body) =>
        if !statusOk {
          chat.Send(RequestFailed);
        } else {
          match body {
            case NotJson(_) =>
              chat.Send(RequestFailed);
            case BadJson =>
              chat.Send(RequestFailed);
            case Json(payload, _) =>
              var s := ScanOffers(payload, Country, Ceiling);
              match s {
                case Hit(count, price) =>
                  chat.Send(Available(count, price));
                  return Returned(true);
                case Crash =>
                  return Raised;
                case Miss =>
              }
          }
        }
      case ConnErr =>
        chat.Send(RequestFailed);
      case Timeout =>
        chat.Send(RequestFailed);
      case OtherErr =>
        return Raised;
    }
    chat.Send(NoNumbers);
    return Returned(false);
  }

  /** What one call of `get_balance` sends for each reply. */
  function BalanceSent(f: Transport<string>): (r: seq<Msg>)
    ensures |r| == 1
    ensures r[0].Balance? <==> f.Delivered? && f.statusOk
  {
    match f
    case ConnErr => [RequestFailed]
    case Timeout => [RequestFailed]
    case OtherErr => [Failed]
    case Delivered(statusOk, text) =>
      if statusOk then [Balance(BalanceNotice(text))] else [RequestFailed]
  }

  /** `get_balance`: one balance lookup; the final `except Exception` means it never raises. */
  method GetBalance(f: Transport<string>, chat: Chat)
    modifies chat
    ensures chat.sent == old(chat.sent) + BalanceSent(f)
  {
    match f {
      case Delivered(statusOk, text) =>
        if statusOk {
          chat.Send(Balance(BalanceNotice(text)));
        } else {
          chat.Send(RequestFailed);
        }
      case ConnErr =>
        chat.Send(RequestFailed);
      case Timeout =>
        chat.Send(RequestFailed);
      case OtherErr =>
        chat.Send(Failed);
    }
  }

  /** `get_numbers` returns true exactly when the accepted, decoded mapping has a first match (137, <= 12, count != 0). */
  lemma FoundIffFirstMatch(f: Transport<Body>)
    ensures Numbers(f).exit == Returned(true) <==>
      && f.Delivered? && f.statusOk && f.body.Json? && f.body.payload.Mapping?
      && exists k :: IsFirstMatch(f.body.payload.values, k, Country, Ceiling)
  {
    if f.Delivered? && f.body.Json? && f.body.payload.Mapping? {
      HitIsFirstMatch(f.body.payload.values, Country, Ceiling);
    }
  }

  /** With a first match at k, exactly one notification is sent, naming value k. */
  lemma ReportsFirstMatchOnly(values: seq<Entry>, k: int, labelled: bool)
    requires IsFirstMatch(values, k, Country, Ceiling)
    ensures Numbers(Delivered(true, Json(Mapping(values), labelled))) ==
            Report(Returned(true), [Available(values[k].count, values[k].price.value)])
  {
    HitIsFirstMatch(values, Country, Ceiling);
  }

  /** When nothing qualifies and nothing raises, the only notification is "Нет доступных номеров". */
  lemma NoOfferSendsFallbackOnly(values: seq<Entry>, labelled: bool)
    requires WellFormed(values, Country)
    requires forall k :: 0 <= k < |values| ==> !Qualifies(values[k], Country, Ceiling)
    ensures Numbers(Delivered(true, Json(Mapping(values), labelled))) == Report(Returned(false), [NoNumbers])
  {
    WellFormedHitIffQualifying(values, Country, Ceiling);
  }

  /**
   * A rejected status, a connection error, a timeout or a body that does not
   * decode is reported as "Ошибка запроса", followed by "Нет доступных
   * номеров", and the result is false.
   */
  lemma RequestErrorThenFallback(f: Transport<Body>)
    requires f.ConnErr? || f.Timeout? || (f.Delivered? && (!f.statusOk || !f.body.Json?))
    ensures Numbers(f) == Report(Returned(false), [RequestFailed, NoNumbers])
  {
  }

  /**
   * An exception outside the two handled classes escapes with nothing sent,
   * not even the fallback: a client error of another class, a document that
   * is not a mapping, or a target-country value without a price reached
   * before any match.
   */
  lemma UnhandledEscapes(f: Transport<Body>)
    requires f.OtherErr? || (f.Delivered? && f.statusOk && f.body.Json? && ScanOf(f.body.payload, Country, Ceiling).Crash?)
    ensures Numbers(f) == Report(Raised, [])
  {
  }

  /** For instance: a country-137 value without a price, first in the mapping, makes `get_numbers` raise. */
  lemma MissingPriceEscapes(count: Option<int>, rest: seq<Entry>, labelled: bool)
    ensures Numbers(Delivered(true, Json(Mapping([Offer(Some(Country), None, count)] + rest), labelled))).exit == Raised
  {
  }

  /** `get_balance` sends exactly one message: the balance after the last marker, or one error message. */
  lemma BalanceSendsOneMessage(f: Transport<string>)
    ensures |BalanceSent(f)| == 1
    ensures f.Delivered? && f.statusOk ==>
              exists v :: BalanceSent(f)[0] == Balance(Prefix + v) && AfterLastMarker(f.body, v)
    ensures !(f.Delivered? && f.statusOk) ==> IsError(BalanceSent(f)[0])
  {
    if f.Delivered? && f.statusOk {
      BalanceIsAfterLastMarker(f.body);
    }
  }
}
