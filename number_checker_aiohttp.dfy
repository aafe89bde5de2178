/**
 * number_checker_aiohttp.py: the variant of `NumberChecker` that fetches and
 * decodes the inventory in one helper (`fetch`). It looks for country 137
 * at a price of at most 12 (its docstring says 22 and 4).
 *
 * `fetch` calls `response.json()` with no text fallback, so a body that is
 * not served as JSON raises aiohttp's `ContentTypeError`, even when its
 * text would parse; that is a `ClientResponseError` and lands in the
 * "Ошибка запроса" handler.
 */
module AiohttpChecker {
  import opened Http
  import opened Outbox
  import opened Offers
  import opened Balance

  const Country: int := 137
  const Ceiling: real := 12.0

  /**
   * What one call of `get_numbers` does for each response. The catch-all
   * handler means no exception escapes, and one or two messages are sent.
   */
  function Numbers(f: Transport<Body>): (r: Report)
    ensures r.exit.Returned?
    ensures 1 <= |r.sent| <= 2
  {
    match f
    case ConnErr => Fallback(NoConnection)
    case Timeout => Fallback(TimedOut)
    case OtherErr => Fallback(Unexpected)
    case Delivered(statusOk, body) =>
      if !statusOk then Fallback(RequestFailed)
      else
        match body
        case NotJson(_) => Fallback(RequestFailed)
        case BadJson => Fallback(DataFailed)
        case Json(payload, labelled) =>
          if !labelled then Fallback(RequestFailed)
          else
            match ScanOf(payload, Country, Ceiling)
            case Hit(count, price) => Report(Returned(true), [Available(count, price)])
            case Miss => Report(Returned(false), [NoNumbers])
            case Crash => Fallback(Unexpected)
  }

  /** `get_numbers`: one availability check, reported to the administrator. */
  method GetNumbers(f: Transport<Body>, chat: Chat) returns (found: bool)
    modifies chat
    ensures Numbers(f).exit == Returned(found)
    ensures chat.sent == old(chat.sent) + Numbers(f).sent
  {
    match f {
      case Delivered(statusOk, body) =>
        if !statusOk {
          chat.Send(RequestFailed);
        } else {
          match body {
            case NotJson(_) =>
              chat.Send(RequestFailed);
            case BadJson =>
              chat.Send(DataFailed);
            case Json(payload, labelled) =>
              if !labelled {
                chat.Send(RequestFailed);
              } else {
                var s := ScanOffers(payload, Country, Ceiling);
                match s {
                  case Hit(count, price) =>
                    chat.Send(Available(count, price));
                    return true;
                  case Crash =>
                    chat.Send(Unexpected);
                  case Miss =>
                }
              }
          }
        }
      case ConnErr =>
        chat.Send(NoConnection);
      case Timeout =>
        chat.Send(TimedOut);
      case OtherErr =>
        chat.Send(Unexpected);
    }
    chat.Send(NoNumbers);
    return false;
  }

  /**
   * `get_balance` as written: on an accepted reply it calls `.split` on
   * `response.text`, which is the coroutine method itself, not the body, so
   * the `AttributeError` lands in the catch-all handler.
   */
  function BalanceSentAsWritten(f: Transport<string>): (r: seq<Msg>)
    ensures |r| == 1 && !r[0].Balance?
  {
    match f
    case ConnErr => [NoConnection]
    case Timeout => [TimedOut]
    case OtherErr => [Unexpected]
    case Delivered(statusOk, _) => if statusOk then [Unexpected] else [RequestFailed]
  }

  /** `get_balance` as evidently intended (`(await response.text()).split(...)`). */
  function BalanceSent(f: Transport<string>): (r: seq<Msg>)
    ensures |r| == 1
    ensures r[0].Balance? <==> f.Delivered? && f.statusOk
  {
    match f
    case ConnErr => [NoConnection]
    case Timeout => [TimedOut]
    case OtherErr => [Unexpected]
    case Delivered(statusOk, text) =>
      if statusOk then [Balance(BalanceNotice(text))] else [RequestFailed]
  }

  /** `get_balance` with the reply's text awaited: one balance lookup, reported to the administrator. */
  method GetBalance(f: Transport<string>, chat: Chat)
    modifies chat
    ensures chat.sent == old(chat.sent) + BalanceSent(f)
  {
    match f {
      case Delivered(statusOk, text) =>
        if statusOk {
          chat.Send(Balance(BalanceNotice(text)));
        } else {
          chat.Send(RequestFailed);
        }
      case ConnErr =>
        chat.Send(NoConnection);
      case Timeout =>
        chat.Send(TimedOut);
      case OtherErr =>
        chat.Send(Unexpected);
    }
  }

  /** `get_numbers` returns true exactly when the accepted, decoded mapping has a first match (137, <= 12, count != 0). */
  lemma FoundIffFirstMatch(f: Transport<Body>)
    ensures Numbers(f).exit == Returned(true) <==>
      && f.Delivered? && f.statusOk && f.body.Json? && f.body.labelled && f.body.payload.Mapping?
      && exists k :: IsFirstMatch(f.body.payload.values, k, Country, Ceiling)
  {
    if f.Delivered? && f.body.Json? && f.body.payload.Mapping? {
      HitIsFirstMatch(f.body.payload.values, Country, Ceiling);
    }
  }

  /** With a first match at k, exactly one notification is sent, naming value k, and no fallback follows. */
  lemma ReportsFirstMatchOnly(values: seq<Entry>, k: int)
    requires IsFirstMatch(values, k, Country, Ceiling)
    ensures Numbers(Delivered(true, Json(Mapping(values), true))) ==
            Report(Returned(true), [Available(values[k].count, values[k].price.value)])
  {
    HitIsFirstMatch(values, Country, Ceiling);
  }

  /** When nothing qualifies and nothing raises, the only notification is "Нет доступных номеров". */
  lemma NoOfferSendsFallbackOnly(values: seq<Entry>)
    requires WellFormed(values, Country)
    requires forall k :: 0 <= k < |values| ==> !Qualifies(values[k], Country, Ceiling)
    ensures Numbers(Delivered(true, Json(Mapping(values), true))) == Report(Returned(false), [NoNumbers])
  {
    WellFormedHitIffQualifying(values, Country, Ceiling);
  }

  /**
   * Every handled exception class (connection, timeout, response error, value
   * error, anything else, an exception while scanning) sends exactly one
   * error message, then "Нет доступных номеров", and the result is false.
   */
  lemma ErrorThenFallback(f: Transport<Body>)
    requires !(f.Delivered? && f.statusOk && f.body.Json? && f.body.labelled && !ScanOf(f.body.payload, Country, Ceiling).Crash?)
    ensures Numbers(f).exit == Returned(false)
    ensures |Numbers(f).sent| == 2 && IsError(Numbers(f).sent[0]) && Numbers(f).sent[1] == NoNumbers
  {
  }

  /**
   * A body not served as JSON is refused before it is read, even when its
   * text is a well-formed inventory: "Ошибка запроса", then the fallback.
   */
  lemma UnlabelledBodyIsRequestError(p: Payload)
    ensures Numbers(Delivered(true, Json(p, false))) == Report(Returned(false), [RequestFailed, NoNumbers])
    ensures Numbers(Delivered(true, NotJson(""))) == Numbers(Delivered(true, Json(p, false)))
  {
  }

  /**
   * A value for another country never has its price compared, so a missing
   * price there does not interrupt the scan: the outcome is that of the
   * remaining values.
   */
  lemma OtherCountryPriceNotCompared(e: Entry, rest: seq<Entry>)
    requires e.Offer? && e.country != Some(Country) && e.price.None?
    ensures Numbers(Delivered(true, Json(Mapping([e] + rest), true))) == Numbers(Delivered(true, Json(Mapping(rest), true)))
  {
    OtherCountryIsSkipped(e, rest, Country, Ceiling);
  }

  /** As written, `get_balance` never reports a balance, whatever the reply. */
  lemma BalanceAsWrittenNeverReports(f: Transport<string>)
    ensures |BalanceSentAsWritten(f)| == 1 && IsError(BalanceSentAsWritten(f)[0])
    ensures f == Delivered(true, "ACCESS_BALANCE:42.50") ==> BalanceSentAsWritten(f) == [Unexpected]
  {
  }

  /**
   * As intended, `get_balance` never raises and sends exactly one message:
   * the balance after the last marker on an accepted reply, one error
   * message otherwise.
   */
  lemma BalanceSendsOneMessage(f: Transport<string>)
    ensures |BalanceSent(f)| == 1
    ensures f.Delivered? && f.statusOk ==>
              exists v :: BalanceSent(f)[0] == Balance(Prefix + v) && AfterLastMarker(f.body, v)
    ensures !(f.Delivered? && f.statusOk) ==> IsError(BalanceSent(f)[0])
    ensures f == Delivered(true, "ACCESS_BALANCE:42.50") ==> BalanceSent(f) == [Balance("Баланс: 42.50")]
  {
    if f.Delivered? && f.statusOk {
      BalanceIsAfterLastMarker(f.body);
    }
    BalanceOfTypicalReply();
  }
}
