/**
 * number_checker.py: the aiohttp-based `NumberChecker` that bot_handler.py
 * drives. It looks for country 137 at a price of at most 9 (its docstring
 * says 22 and 4; the code is what is modelled).
 *
 * Each call sends its notifications to the administrator's `Chat` in order.
 */
module NumberChecker {
  import opened Http
  import opened Outbox
  import opened Offers
  import opened Balance

  const Country: int := 137
  const Ceiling: real := 9.0

  /**
   * What one call of `get_numbers` does for each response: the handlers for
   * connection errors, timeouts, response errors (a rejected status), value
   * errors and any other exception each send their message and fall through
   * to "Нет доступных номеров"; a body that is not JSON is reported and the
   * call returns at once, without that fallback. No exception escapes, and
   * one or two messages are sent.
   */
  function Numbers(f: Transport<Body>): (r: Report)
    ensures r.exit.Returned?
    ensures 1 <= |r.sent| <= 2
  {
    match f
    case ConnErr => Fallback(NoConnection)
    case Timeout => Fallback(TimedOut)
    case OtherErr => Fallback(Unexpected)
    case Delivered(statusOk, body) =>
      if !statusOk then Fallback(RequestFailed)
      else
        match body
        case NotJson(text) => Report(Returned(false), [CannotParse(text)])
        case BadJson => Fallback(DataFailed)
        case Json(payload, _) =>
          match ScanOf(payload, Country, Ceiling)
          case Hit(count, price) => Report(Returned(true), [Available(count, price)])
          case Miss => Report(Returned(false), [NoNumbers])
          case Crash => Fallback(Unexpected)
  }

  /** `get_numbers`: one availability check, reported to the administrator. */
  method GetNumbers(f: Transport<Body>, chat: Chat) returns (found: bool)
    modifies chat
    ensures Numbers(f).exit == Returned(found)
    ensures chat.sent == old(chat.sent) + Numbers(f).sent
  {
    match f {
      case Delivered(statusOk, body) =>
        if !statusOk {
          chat.Send(RequestFailed);
        } else {
          match body {
            case NotJson(text) =>
              chat.Send(CannotParse(text));
              return false;
            case BadJson =>
              chat.Send(DataFailed);
            case Json(payload, _) =>
              var s := ScanOffers(payload, Country, Ceiling);
              match s {
                case Hit(count, price) =>
                  chat.Send(Available(count, price));
                  return true;
                case Crash =>
                  chat.Send(Unexpected);
                case Miss =>
              }
          }
        }
      case ConnErr =>
        chat.Send(NoConnection);
      case Timeout =>
        chat.Send(TimedOut);
      case OtherErr =>
        chat.Send(Unexpected);
    }
    chat.Send(NoNumbers);
    return false;
  }

  /** What one call of `get_balance` sends for each reply to the balance request. */
  function BalanceSent(f: Transport<string>): (r: seq<Msg>)
    ensures |r| == 1
    ensures r[0].Balance? <==> f.Delivered? && f.statusOk
  {
    match f
    case ConnErr => [NoConnection]
    case Timeout => [TimedOut]
    case OtherErr => [Unexpected]
    case Delivered(statusOk, text) =>
      if statusOk then [Balance(BalanceNotice(text))] else [RequestFailed]
  }

  /** `get_balance`: one balance lookup, reported to the administrator; it never raises. */
  method GetBalance(f: Transport<string>, chat: Chat)
    modifies chat
    ensures chat.sent == old(chat.sent) + BalanceSent(f)
  {
    match f {
      case Delivered(statusOk, text) =>
        if statusOk {
          chat.Send(Balance(BalanceNotice(text)));
        } else {
          chat.Send(RequestFailed);
        }
      case ConnErr =>
        chat.Send(NoConnection);
      case Timeout =>
        chat.Send(TimedOut);
      case OtherErr =>
        chat.Send(Unexpected);
    }
  }

  /**
   * `get_numbers` returns true exactly when the response is accepted, decodes
   * to a mapping, and some value is the first match of the filter
   * country == 137, price <= 9, count != 0 (every value before it passed
   * over without an exception).
   */
  lemma FoundIffFirstMatch(f: Transport<Body>)
    ensures Numbers(f).exit == Returned(true) <==>
      && f.Delivered? && f.statusOk && f.body.Json? && f.body.payload.Mapping?
      && exists k :: IsFirstMatch(f.body.payload.values, k, Country, Ceiling)
  {
    if f.Delivered? && f.body.Json? && f.body.payload.Mapping? {
      HitIsFirstMatch(f.body.payload.values, Country, Ceiling);
    }
  }

  /**
   * On an inventory where the filter never raises, `get_numbers` returns
   * true if and only if SOME value qualifies.
   */
  lemma FoundIffSomeOfferQualifies(values: seq<Entry>, labelled: bool)
    requires WellFormed(values, Country)
    ensures Numbers(Delivered(true, Json(Mapping(values), labelled))).exit == Returned(true) <==>
            exists k :: 0 <= k < |values| && Qualifies(values[k], Country, Ceiling)
  {
    WellFormedHitIffQualifying(values, Country, Ceiling);
  }

  /**
   * With a first match at k, exactly one notification is sent, naming the
   * count and price of value k (not of any later, cheaper or larger offer),
   * and no fallback follows.
   */
  lemma ReportsFirstMatchOnly(values: seq<Entry>, k: int, labelled: bool)
    requires IsFirstMatch(values, k, Country, Ceiling)
    ensures Numbers(Delivered(true, Json(Mapping(values), labelled))) ==
            Report(Returned(true), [Available(values[k].count, values[k].price.value)])
  {
    HitIsFirstMatch(values, Country, Ceiling);
  }

  /** When nothing qualifies and nothing raises, the only notification is "Нет доступных номеров". */
  lemma NoOfferSendsFallbackOnly(values: seq<Entry>, labelled: bool)
    requires WellFormed(values, Country)
    requires forall k :: 0 <= k < |values| ==> !Qualifies(values[k], Country, Ceiling)
    ensures Numbers(Delivered(true, Json(Mapping(values), labelled))) == Report(Returned(false), [NoNumbers])
  {
    WellFormedHitIffQualifying(values, Country, Ceiling);
  }

  /** A body that is not JSON is reported once, with its text, and the fallback message is NOT sent. */
  lemma UnparseableSkipsFallback(text: string)
    ensures Numbers(Delivered(true, NotJson(text))) == Report(Returned(false), [CannotParse(text)])
    ensures NoNumbers !in Numbers(Delivered(true, NotJson(text))).sent
  {
  }

  /**
   * A connection error, a timeout, a rejected status, a value error, an
   * exception while scanning or any other exception sends exactly one error
   * message and then "Нет доступных номеров", and the result is false.
   */
  lemma ErrorThenFallback(f: Transport<Body>)
    requires || f.ConnErr? || f.Timeout? || f.OtherErr?
             || (f.Delivered? && !f.statusOk)
             || (f.Delivered? && f.body.BadJson?)
             || (f.Delivered? && f.body.Json? && ScanOf(f.body.payload, Country, Ceiling).Crash?)
    ensures Numbers(f).exit == Returned(false)
    ensures |Numbers(f).sent| == 2 && IsError(Numbers(f).sent[0]) && Numbers(f).sent[1] == NoNumbers
  {
  }

  /**
   * `get_balance` sends exactly one message: "Баланс: " followed by the text
   * after the last "ACCESS_BALANCE:" (the whole text without one) when the
   * reply is accepted, one error message otherwise.
   */
  lemma BalanceSendsOneMessage(f: Transport<string>)
    ensures |BalanceSent(f)| == 1
    ensures f.Delivered? && f.statusOk ==>
              exists v :: BalanceSent(f)[0] == Balance(Prefix + v) && AfterLastMarker(f.body, v)
    ensures !(f.Delivered? && f.statusOk) ==> IsError(BalanceSent(f)[0])
  {
    if f.Delivered? && f.statusOk {
      BalanceIsAfterLastMarker(f.body);
    }
  }
}
