/**
 * checker.py: the first, single-file bot built on `requests` and module
 * globals. It looks for country 22 at a price of at most 4, checks no HTTP
 * status, and catches every exception with one handler that sends
 * "Ошибка: {e}". The URLs are read from the environment on every call; an
 * unset one raises `ValueError` inside the `try`.
 *
 * Its controller is the global `STOP` and the `check_loop` tasks, which are
 * never cancelled and never end: every `/start` and `on_startup` adds one,
 * and while `STOP` is set they wake once a second without checking.
 */
module LegacyChecker {
  import opened Http
  import opened Outbox
  import opened Offers
  import opened Balance
  import opened Schedule

  const Country: int := 22
  const Ceiling: real := 4.0

  /**
   * What one call of `get_numbers` does; `urlSet` says whether
   * `url_sms_activate` is set. The catch-all handler means it never raises,
   * and it sends one or two messages.
   */
  function Numbers(urlSet: bool, f: Transport<Body>): (r: Report)
    ensures r.exit.Returned?
    ensures 1 <= |r.sent| <= 2
  {
    if !urlSet then Fallback(Failed)
    else
      match f
      case Delivered(_, Json(payload, _)) =>
        (match ScanOf(payload, Country, Ceiling)
         case Hit(count, price) => Report(Returned(true), [Available(count, price)])
         case Miss => Report(Returned(false), [NoNumbers])
         case Crash => Fallback(Failed))
      case _ => Fallback(Failed)
  }

  /** `get_numbers`: one availability check, reported to the administrator. */
  method GetNumbers(urlSet: bool, f: Transport<Body>, chat: Chat) returns (found: bool)
    modifies chat
    ensures Numbers(urlSet, f).exit == Returned(found)
    ensures chat.sent == old(chat.sent) + Numbers(urlSet, f).sent
  {
    if !urlSet {
      chat.Send(Failed);
    } else if f.Delivered? && f.body.Json? {
      var s := ScanOffers(f.body.payload, Country, Ceiling);
      match s {
        case Hit(count, price) =>
          chat.Send(Available(count, price));
          return true;
        case Crash =>
          chat.Send(Failed);
        case Miss =>
      }
    } else {
      chat.Send(Failed);
    }
    chat.Send(NoNumbers);
    return false;
  }

  /**
   * What one call of `get_balance` sends; `urlSet` says whether `url_api_sms`
   * is set. The status is never checked, so any reply that arrives is
   * announced as a balance.
   */
  function BalanceSent(urlSet: bool, f: Transport<string>): (r: seq<Msg>)
    ensures |r| == 1
    ensures r[0].Balance? <==> urlSet && f.Delivered?
  {
    if urlSet && f.Delivered? then [Balance(BalanceNotice(f.body))] else [Failed]
  }

  /** `get_balance`: one balance lookup, reported to the administrator. */
  method GetBalance(urlSet: bool, f: Transport<string>, chat: Chat)
    modifies chat
    ensures chat.sent == old(chat.sent) + BalanceSent(urlSet, f)
  {
    if urlSet && f.Delivered? {
      chat.Send(Balance(BalanceNotice(f.body)));
    } else {
      chat.Send(Failed);
    }
  }

  /**
   * `get_numbers` returns true exactly when the URL is set, a response
   * arrives (whatever its status), it decodes to a mapping, and some value
   * is the first match of country == 22, price <= 4, count != 0.
   */
  lemma FoundIffFirstMatch(urlSet: bool, f: Transport<Body>)
    ensures Numbers(urlSet, f).exit == Returned(true) <==>
      && urlSet && f.Delivered? && f.body.Json? && f.body.payload.Mapping?
      && exists k :: IsFirstMatch(f.body.payload.values, k, Country, Ceiling)
  {
    if f.Delivered? && f.body.Json? && f.body.payload.Mapping? {
      HitIsFirstMatch(f.body.payload.values, Country, Ceiling);
    }
  }

  /** The HTTP status is never looked at: a rejected response is scanned like an accepted one. */
  lemma StatusIgnored(urlSet: bool, body: Body)
    ensures Numbers(urlSet, Delivered(false, body)) == Numbers(urlSet, Delivered(true, body))
    ensures BalanceSent(true, Delivered(false, "ACCESS_BALANCE:42.50")) == [Balance("Баланс: 42.50")]
  {
    BalanceOfTypicalReply();
  }

  /** With a first match at k, exactly one notification is sent, naming value k. */
  lemma ReportsFirstMatchOnly(values: seq<Entry>, k: int, statusOk: bool, labelled: bool)
    requires IsFirstMatch(values, k, Country, Ceiling)
    ensures Numbers(true, Delivered(statusOk, Json(Mapping(values), labelled))) ==
            Report(Returned(true), [Available(values[k].count, values[k].price.value)])
  {
    HitIsFirstMatch(values, Country, Ceiling);
  }

  /**
   * Whatever goes wrong (an unset URL, a client error, a body that is not
   * JSON, a document or value the filter cannot read), one "Ошибка" message
   * is sent, then "Нет доступных номеров", and the result is false.
   */
  lemma AnyFailureThenFallback(urlSet: bool, f: Transport<Body>)
    requires !(urlSet && f.Delivered? && f.body.Json? && !ScanOf(f.body.payload, Country, Ceiling).Crash?)
    ensures Numbers(urlSet, f) == Report(Returned(false), [Failed, NoNumbers])
  {
  }

  /**
   * `get_balance` sends exactly one message: the text after the last marker
   * whenever a reply arrives, whatever its status; "Ошибка" otherwise.
   */
  lemma BalanceSendsOneMessage(urlSet: bool, f: Transport<string>)
    ensures |BalanceSent(urlSet, f)| == 1
    ensures urlSet && f.Delivered? ==>
              exists v :: BalanceSent(urlSet, f)[0] == Balance(Prefix + v) && AfterLastMarker(f.body, v)
    ensures !(urlSet && f.Delivered?) ==> BalanceSent(urlSet, f) == [Failed]
  {
    if urlSet && f.Delivered? {
      BalanceIsAfterLastMarker(f.body);
    }
  }

  /**
   * The invariant of the loops: the log refers to existing loops, lies in
   * the past and is in clock order, every check returned, each loop sleeps
   * at least the gap its last check calls for, and the log is spaced.
   */
  ghost predicate Paced(loops: seq<nat>, now: nat, log: seq<Check>) {
    && (forall i :: 0 <= i < |log| ==> log[i].task < |loops| && log[i].at <= now && log[i].exit.Returned?)
    && (forall i :: 0 <= i < |log| ==> log[i].at + Gap(log[i].exit.found) <= loops[log[i].task])
    && Chronological(log)
    && Spaced(log)
  }

  /** No loop and an empty log satisfy the invariant. */
  lemma InitiallyPaced()
    ensures Paced([], 0, [])
  {
  }

  /** A new loop, waking now, keeps the invariant. */
  lemma SpawnKeeps(loops: seq<nat>, now: nat, log: seq<Check>)
    requires Paced(loops, now, log)
    ensures Paced(loops + [now], now, log)
  {
  }

  /** A loop that idles (wakes again one second later) keeps the invariant, once the clock has reached its wake time. */
  lemma IdleKeeps(loops: seq<nat>, now: nat, later: nat, log: seq<Check>, id: nat)
    requires Paced(loops, now, log) && id < |loops| && now <= later && loops[id] <= later
    ensures Paced(loops[id := later + 1], later, log)
  {
  }

  /** A check by a loop whose sleep is over keeps the invariant. */
  lemma CheckKeeps(loops: seq<nat>, now: nat, later: nat, log: seq<Check>, id: nat, found: bool)
    requires Paced(loops, now, log) && id < |loops| && now <= later && loops[id] <= later
    ensures Paced(loops[id := later + Gap(found)], later, log + [Check(id, later, Returned(found))])
  {
    var log' := log + [Check(id, later, Returned(found))];
    forall i, j | 0 <= i < j < |log'| && log'[i].task == log'[j].task
      ensures log'[i].exit.Returned? && log'[i].at + Gap(log'[i].exit.found) <= log'[j].at
    {
      if j == |log| {
        assert log'[i] == log[i];
      }
    }
  }

  class LegacyBot {
    const chat: Chat
    const numbersUrlSet: bool
    const balanceUrlSet: bool
    var stop: bool
    var loops: seq<nat>
    var now: nat
    var log: seq<Check>

    ghost predicate Valid()
      reads this
    {
      Paced(loops, now, log)
    }

    /** Module load: `STOP = False`, no loop yet. */
    constructor (chat: Chat, numbersUrlSet: bool, balanceUrlSet: bool)
      ensures Paced(loops, now, log) && Valid()
      ensures this.chat == chat && this.numbersUrlSet == numbersUrlSet && this.balanceUrlSet == balanceUrlSet
      ensures !stop && loops == [] && now == 0 && log == []
    {
      this.chat := chat;
      this.numbersUrlSet := numbersUrlSet;
      this.balanceUrlSet := balanceUrlSet;
      stop := false;
      loops := [];
      now := 0;
      log := [];
      new;
      InitiallyPaced();
    }

    /** `/start`: clears `STOP` and spawns one more loop, however many are running. */
    method StartCommand()
      requires Valid()
      modifies this
      ensures Valid()
      ensures !stop && loops == old(loops) + [now]
      ensures now == old(now) && log == old(log)
    {
      SpawnKeeps(loops, now, log);
      stop := false;
      loops := loops + [now];
    }

    /** `/stop`: sets `STOP`; no loop is cancelled. */
    method StopCommand()
      requires Valid()
      modifies this
      ensures Valid()
      ensures stop && loops == old(loops) && now == old(now) && log == old(log)
    {
      stop := true;
    }

    /** `on_startup`: spawns one more loop; `STOP` is untouched. */
    method OnStartup()
      requires Valid()
      modifies this
      ensures Valid()
      ensures loops == old(loops) + [now]
      ensures stop == old(stop) && now == old(now) && log == old(log)
    {
      SpawnKeeps(loops, now, log);
      loops := loops + [now];
    }

    /**
     * One pass of loop `id`'s `while True`, once its sleep is over: with
     * `STOP` set it sleeps one second; otherwise it calls `get_numbers` and
     * sleeps the gap the result calls for. No loop ever ends.
     */
    method Step(id: nat, f: Transport<Body>)
      requires Valid() && id < |loops|
      modifies this, chat
      ensures Valid()
      ensures now == Max(old(now), old(loops[id]))
      ensures stop == old(stop)
      ensures stop ==> loops == old(loops)[id := now + 1] && log == old(log) && chat.sent == old(chat.sent)
      ensures !stop ==>
                && log == old(log) + [Check(id, now, Numbers(numbersUrlSet, f).exit)]
                && chat.sent == old(chat.sent) + Numbers(numbersUrlSet, f).sent
                && loops == old(loops)[id := now + Gap(Numbers(numbersUrlSet, f).exit.found)]
    {
      var later := Max(now, loops[id]);
      if stop {
        IdleKeeps(loops, now, later, log, id);
        loops, now := loops[id := later + 1], later;
      } else {
        var found := GetNumbers(numbersUrlSet, f, chat);
        assert Numbers(numbersUrlSet, f).exit == Returned(found);
        CheckKeeps(loops, now, later, log, id, found);
        loops, now, log := loops[id := later + Gap(found)], later, log + [Check(id, later, Returned(found))];
      }
    }

    /** `/check`: one call of `get_numbers`, outside any loop. */
    method CheckCommand(f: Transport<Body>)
      modifies chat
      ensures chat.sent == old(chat.sent) + Numbers(numbersUrlSet, f).sent
    {
      var found := GetNumbers(numbersUrlSet, f, chat);
    }

    /** `/balance`: one call of `get_balance`. */
    method BalanceCommand(f: Transport<string>)
      modifies chat
      ensures chat.sent == old(chat.sent) + BalanceSent(balanceUrlSet, f)
    {
      GetBalance(balanceUrlSet, f, chat);
    }
  }

  /**
   * `/start`, a check, `/stop`, `/start`: the first loop was only paused, so
   * once the second has checked, the first wakes and checks as well, and two
   * loops now poll side by side.
   */
  method RestartDoublesPolling(chat: Chat, f: Transport<Body>, g: Transport<Body>, h: Transport<Body>)
    returns (b: LegacyBot)
    modifies chat
    ensures b.Valid() && |b.loops| == 2 && !b.stop
    ensures |b.log| == 3 && b.log[0].task == 0 && b.log[1].task == 1 && b.log[2].task == 0
  {
    b := new LegacyBot(chat, true, true);
    b.StartCommand();
    b.Step(0, f);
    b.StopCommand();
    b.StartCommand();
    b.Step(1, g);
    b.Step(0, h);
  }
}
