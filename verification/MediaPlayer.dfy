/** The television's reported state (media_player.py): for a short window after a
    power command the commanded state, otherwise what the last scan saw. */
module MediaPlayers {
  import opened Prelude
  import Bindings
  import Transports

  const OPTIMISTIC_STATE_SECONDS: real := 12.0

  datatype TvState = On | Off

  /** A status: the devices by address. */
  type Devices = map<int, Transports.CecDevice>

  datatype TvEvent =
    | Scanned(at: real, devices: Devices)
    | Commanded(at: real, state: TvState)   // a power command succeeded
    | CommandFailed(at: real)
    | Read(at: real)

  /** What a scan says of the device at this address, if it saw it and the device
      told its power status. */
  function FromScan(data: Option<Devices>, address: int): Option<TvState> {
    if data.None? || address !in data.value || data.value[address].isOn.None? then None
    else Some(if data.value[address].isOn.value then On else Off)
  }

  ghost predicate Chronological(history: seq<TvEvent>) {
    forall i, j :: 0 <= i < j < |history| ==> history[i].at <= history[j].at
  }

  ghost predicate NotBefore(history: seq<TvEvent>, now: real) {
    forall i :: 0 <= i < |history| ==> history[i].at <= now
  }

  function LastSeen(history: seq<TvEvent>): Option<Devices> {
    if history == [] then None else
    var last := history[|history| - 1];
    if last.Scanned? then Some(last.devices) else LastSeen(history[..|history| - 1])
  }

  /** The latest power command that succeeded. */
  function LastCommand(history: seq<TvEvent>): (command: Option<TvEvent>)
    ensures command.Some? ==> command.value.Commanded?
  {
    if history == [] then None else
    var last := history[|history| - 1];
    if last.Commanded? then Some(last) else LastCommand(history[..|history| - 1])
  }

  /** What is to be reported, by the history alone; reads and failed commands
      have no part in it. */
  function Answer(history: seq<TvEvent>, address: int, now: real): Option<TvState> {
    var command := LastCommand(history);
    if command.Some? && now < command.value.at + OPTIMISTIC_STATE_SECONDS
    then Some(command.value.state)
    else FromScan(LastSeen(history), address)
  }

  /** Leaving the reads and the failed commands out changes no answer. */
  function Essential(history: seq<TvEvent>): seq<TvEvent> {
    if history == [] then [] else
    var last := history[|history| - 1];
    Essential(history[..|history| - 1]) + (if last.Scanned? || last.Commanded? then [last] else [])
  }

  lemma {:induction false} SameLast(history: seq<TvEvent>)
    ensures LastSeen(Essential(history)) == LastSeen(history)
    ensures LastCommand(Essential(history)) == LastCommand(history)
  {
    if history != [] {
      var n := |history| - 1;
      SameLast(history[..n]);
      if history[n].Scanned? || history[n].Commanded? {
        assert Essential(history)[..|Essential(history)| - 1] == Essential(history[..n]);
      } else {
        assert Essential(history) == Essential(history[..n]);
      }
    }
  }

  lemma {:induction false} OnlyEssentialsCount(history: seq<TvEvent>, address: int, now: real)
    ensures Answer(Essential(history), address, now) == Answer(history, address, now)
  {
    SameLast(history);
  }

  lemma OneMore(history: seq<TvEvent>, e: TvEvent)
    requires Chronological(history) && NotBefore(history, e.at)
    ensures Chronological(history + [e])
    ensures LastCommand(history + [e]) == if e.Commanded? then Some(e) else LastCommand(history)
    ensures LastSeen(history + [e]) == if e.Scanned? then Some(e.devices) else LastSeen(history)
  {
    assert (history + [e])[..|history|] == history;
  }

  /** The latest scan. */
  ghost predicate IsLastScan(history: seq<TvEvent>, i: int) {
    0 <= i < |history| && history[i].Scanned? && forall j :: i < j < |history| ==> !history[j].Scanned?
  }

  /** The latest power command that succeeded. */
  ghost predicate IsLastCommand(history: seq<TvEvent>, i: int) {
    0 <= i < |history| && history[i].Commanded? && forall j :: i < j < |history| ==> !history[j].Commanded?
  }

  lemma {:induction false} LastAreLatest(history: seq<TvEvent>)
    ensures forall i :: IsLastCommand(history, i) ==> LastCommand(history) == Some(history[i])
    ensures LastCommand(history).Some? ==> exists i :: IsLastCommand(history, i)
    ensures forall i :: IsLastScan(history, i) ==> LastSeen(history) == Some(history[i].devices)
    ensures LastSeen(history).Some? ==> exists i :: IsLastScan(history, i)
  {
    if history != [] {
      var n := |history| - 1;
      var front := history[..n];
      LastAreLatest(front);
      assert forall i :: i < n ==> (IsLastCommand(history, i) <==> IsLastCommand(front, i) && !history[n].Commanded?);
      assert forall i :: i < n ==> (IsLastScan(history, i) <==> IsLastScan(front, i) && !history[n].Scanned?);
      assert history[n].Commanded? ==> IsLastCommand(history, n);
      assert history[n].Scanned? ==> IsLastScan(history, n);
    }
  }

  /** The last command's window is open: 12 seconds. */
  ghost predicate InWindow(history: seq<TvEvent>, i: int, now: real) {
    IsLastCommand(history, i) && now < history[i].at + 12.0
  }

  /** The latest scan saw the device at this address and its power status. */
  ghost predicate LastScanShows(history: seq<TvEvent>, address: int, isOn: bool) {
    exists i :: IsLastScan(history, i) && address in history[i].devices &&
      history[i].devices[address].isOn == Some(isOn)
  }

  /** What is reported, said outright. */
  ghost predicate Reports(history: seq<TvEvent>, address: int, now: real, state: Option<TvState>) {
    if exists i :: InWindow(history, i, now) then
      forall i :: InWindow(history, i, now) ==> state == Some(history[i].state)
    else
      && (state == Some(On) <==> LastScanShows(history, address, true))
      && (state == Some(Off) <==> LastScanShows(history, address, false))
  }

  lemma ScanShows(history: seq<TvEvent>, address: int)
    ensures var state := FromScan(LastSeen(history), address);
            && (state == Some(On) <==> LastScanShows(history, address, true))
            && (state == Some(Off) <==> LastScanShows(history, address, false))
  {
    LastAreLatest(history);
    if LastSeen(history).Some? {
      var i :| IsLastScan(history, i);
      assert forall j :: IsLastScan(history, j) ==> j == i;
      var devices := history[i].devices;
      if address in devices && devices[address].isOn.Some? {
        var isOn: bool := devices[address].isOn.value;
        assert devices[address].isOn == Some(isOn);
        assert LastScanShows(history, address, isOn);
      }
    }
  }

  lemma AnswerReports(history: seq<TvEvent>, address: int, now: real)
    ensures Reports(history, address, now, Answer(history, address, now))
  {
    LastAreLatest(history);
    if LastCommand(history).Some? {
      var i :| IsLastCommand(history, i);
      assert forall j :: IsLastCommand(history, j) ==> j == i;
      assert InWindow(history, i, now) <==> now < history[i].at + 12.0;
    }
    ScanShows(history, address);
  }

  class CecMediaPlayer {
    const address: int
    var data: Option<Devices>               // the coordinator's data
    var optimisticState: Option<TvState>
    var optimisticUntil: real
    ghost var history: seq<TvEvent>

    /** The fields remember the last scan and the last command, or know that the
        command's window was over at some point that has passed. */
    ghost predicate Valid()
      reads this
    {
      && Chronological(history)
      && data == LastSeen(history)
      && var command := LastCommand(history);
         if optimisticState.Some? then
           command.Some? &&
           optimisticState == Some(command.value.state) &&
           optimisticUntil == command.value.at + OPTIMISTIC_STATE_SECONDS
         else
           command.Some? ==>
             exists i :: 0 <= i < |history| && history[i].at >= command.value.at + OPTIMISTIC_STATE_SECONDS
    }

    constructor (address: int)
      ensures Valid() && history == [] && this.address == address
    {
      this.address := address;
      data := None;
      optimisticState := None;
      optimisticUntil := 0.0;
      history := [];
    }

    /** The `state` property. */
    method State(now: real) returns (state: Option<TvState>)
      requires Valid() && NotBefore(history, now)
      modifies this`optimisticState, this`history
      ensures Valid() && history == old(history) + [Read(now)]
      ensures state == Answer(old(history), address, now)
      ensures Reports(old(history), address, now, state)
    {
      AnswerReports(history, address, now);
      Log(Read(now));
      if optimisticState.Some? {
        if now < optimisticUntil {
          return optimisticState;
        }
        optimisticState := None;
        assert history[|history| - 1].at == now;
      }
      return FromScan(data, address);
    }

    /** Entering an event that is neither a scan nor a command. */
    ghost method Log(e: TvEvent)
      requires Valid() && NotBefore(history, e.at) && (e.Read? || e.CommandFailed?)
      modifies this`history
      ensures Valid() && history == old(history) + [e]
      ensures LastCommand(history) == LastCommand(old(history)) && LastSeen(history) == LastSeen(old(history))
      ensures optimisticState.None? && LastCommand(history).Some? ==>
                LastCommand(history).value.at + OPTIMISTIC_STATE_SECONDS <= e.at
    {
      OneMore(history, e);
      var before := history;
      history := history + [e];
      assert forall i :: 0 <= i < |before| ==> history[i] == before[i];
    }

    /** The coordinator has new data. */
    method Update(at: real, devices: Devices)
      requires Valid() && NotBefore(history, at)
      modifies this`data, this`history
      ensures Valid() && history == old(history) + [Scanned(at, devices)]
    {
      OneMore(history, Scanned(at, devices));
      data := Some(devices);
      ghost var before := history;
      history := history + [Scanned(at, devices)];
      assert forall i :: 0 <= i < |before| ==> history[i] == before[i];
    }

    /** `async_turn_on` and `async_turn_off`: what is asked of the backend, whose
        answer arrives at `at`. */
    method Turn(state: TvState, accepted: bool, at: real) returns (asked: Bindings.Method, raised: bool)
      requires Valid() && NotBefore(history, at)
      modifies this
      ensures Valid() && raised == !accepted
      ensures asked == Bindings.Power(address, state == On)
      ensures history == old(history) + [if accepted then Commanded(at, state) else CommandFailed(at)]
    {
      asked := Bindings.Power(address, state.On?);
      if !accepted {
        Log(CommandFailed(at));
        return asked, true;
      }
      OneMore(history, Commanded(at, state));
      optimisticState := Some(state);
      optimisticUntil := at + OPTIMISTIC_STATE_SECONDS;
      history := history + [Commanded(at, state)];
      return asked, false;
    }
  }

  ghost predicate EntryShows(entries: seq<Transports.Entry>, address: int, isOn: bool) {
    exists i :: 0 <= i < |entries| && entries[i].address == address && entries[i].isOn == isOn
  }

  /** Behind a scan of the bus with no command since: On and Off are what the
      scan's entry for this address says. */
  lemma ScanIsReported(history: seq<TvEvent>, at: real, entries: seq<Transports.Entry>, address: int, now: real)
    requires Transports.Increasing(entries)
    requires forall i :: 0 <= i < |history| ==> !history[i].Commanded?
    ensures var state := Answer(history + [Scanned(at, Transports.DeviceMap(entries))], address, now);
            && (state == Some(On) <==> EntryShows(entries, address, true))
            && (state == Some(Off) <==> EntryShows(entries, address, false))
  {
    var devices := Transports.DeviceMap(entries);
    var history' := history + [Scanned(at, devices)];
    AnswerReports(history', address, now);
    assert IsLastScan(history', |history|);
    Transports.StatusHasEveryDevice(entries, address);
    Transports.SearchFinds(entries, address);
    forall i | 0 <= i < |entries| && entries[i].address == address
      ensures address in devices && devices[address].isOn == Some(entries[i].isOn)
    {
      Transports.StatusFieldByField(entries, i);
    }
  }
}
