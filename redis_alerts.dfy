/** Append-only alerts in Redis: each Alert is stored under its own UUID.
    Listing reads the reply of `KEYS *` and then fetches each key's value;
    a key that is gone by then fails the whole listing. The order of the
    `KEYS` reply is unspecified, so results are compared as multisets. */
module RedisAlerts {
  import opened Outcomes
  import opened Search
  import opened Window

  const ErrInvalidTitle := "invalid [title]"
  const ErrInvalidBody := "invalid [body]"
  const ErrNoAlerts := "no alerts yet"
  const ErrNoRecentAlerts := "no recent alerts"
  /** The error for a key whose value is missing: go-redis reports `redis: nil`. */
  const ErrGetAlert := "failed to get alert: redis: nil"

  datatype Alert = Alert(uuid: string, title: string, body: string, timestamp: int64)

  function Stamp(a: Alert): int64
  {
    a.timestamp
  }

  /** Every key of the `KEYS` reply still has a value. */
  predicate AllPresent(keys: seq<string>, alerts: map<string, Alert>)
  {
    forall i :: 0 <= i < |keys| ==> keys[i] in alerts
  }

  class AlertStore {
    /** The Redis database. */
    var alerts: map<string, Alert>

    /** Every Alert is stored under its own UUID. */
    ghost predicate Valid()
      reads this
    {
      forall k :: k in alerts ==> alerts[k].uuid == k
    }

    /** An empty database. */
    constructor()
      ensures alerts == map[] && Valid()
    {
      alerts := map[];
    }


    /** CreateAlert: `id` stands for `uuid.New()` and `now` for `time.Now().Unix()`. */
    method CreateAlert(req: Alert, id: string, now: int64) returns (r: Result<Alert>)
      requires Valid()
      modifies this
      ensures Valid()
      ensures req.title == "" ==> r == Err(ErrInvalidTitle)
      ensures req.title != "" && req.body == "" ==> r == Err(ErrInvalidBody)
      ensures r.Err? ==> alerts == old(alerts)
      ensures r.Ok? <==> req.title != "" && req.body != ""
      ensures r.Ok? ==> r.value == Alert(id, req.title, req.body, now)
      ensures r.Ok? ==> alerts == old(alerts)[id := r.value] && alerts[id] == r.value
      ensures r.Ok? && id !in old(alerts) ==> |alerts| == |old(alerts)| + 1
    {
      if req.title == "" {
        return Err(ErrInvalidTitle);
      }
      if req.body == "" {
        return Err(ErrInvalidBody);
      }
      var alert := req.(uuid := id, timestamp := now);
      alerts := alerts[id := alert];
      return Ok(alert);
    }

    /** GetAllAlerts: `keys` is the reply of `KEYS *`. */
    method GetAllAlerts(keys: seq<string>) returns (r: Result<seq<Alert>>)
      ensures keys == [] ==> r == Err(ErrNoAlerts)
      ensures keys != [] && !AllPresent(keys, alerts) ==> r == Err(ErrGetAlert)
      ensures keys != [] && AllPresent(keys, alerts) ==> r == Ok(Gather(keys, alerts))
      ensures r.Ok? ==> |r.value| == |keys| && forall a :: a in r.value ==> a in alerts.Values
      ensures r.Ok? && Valid() ==> forall i :: 0 <= i < |r.value| ==> r.value[i].uuid == keys[i]
    {
      if |keys| == 0 {
        return Err(ErrNoAlerts);
      }
      var all: seq<Alert> := [];
      for i := 0 to |keys|
        invariant forall j :: 0 <= j < i ==> keys[j] in alerts
        invariant all == Gather(keys[..i], alerts)
      {
        if keys[i] !in alerts {
          return Err(ErrGetAlert);
        }
        GatherStep(keys, alerts, i);
        all := all + [alerts[keys[i]]];
      }
      assert keys[..|keys|] == keys;
      GatherStored(keys, alerts);
      return Ok(all);
    }

    /** GetRecentAlerts: `keys` is the reply of `KEYS *`, `now` stands for
        `time.Now().Unix()`. */
    method GetRecentAlerts(now: int64, minutes: int64, keys: seq<string>) returns (r: Result<seq<Alert>>)
      ensures !AllPresent(keys, alerts) ==> r == Err(ErrGetAlert)
      ensures AllPresent(keys, alerts) ==>
                var recent := Since(Gather(keys, alerts), Stamp, Cutoff(now, minutes));
                && (r == Err(ErrNoRecentAlerts) <==> recent == [])
                && (r.Ok? ==> r.value == recent)
                && (recent != [] ==> r == Ok(recent))
      ensures r.Ok? ==> forall a :: a in r.value ==> a in alerts.Values && a.timestamp as int >= Cutoff(now, minutes)
    {
      var cutoff := Cutoff(now, minutes);
      var recent: seq<Alert> := [];
      for i := 0 to |keys|
        invariant forall j :: 0 <= j < i ==> keys[j] in alerts
        invariant recent == Since(Gather(keys[..i], alerts), Stamp, cutoff)
      {
        if keys[i] !in alerts {
          return Err(ErrGetAlert);
        }
        var alert := alerts[keys[i]];
        GatherStep(keys, alerts, i);
        SinceStep(Gather(keys[..i], alerts), alert, Stamp, cutoff);
        if alert.timestamp as int >= cutoff {
          recent := recent + [alert];
        }
      }
      assert keys[..|keys|] == keys;
      assert recent == Since(Gather(keys, alerts), Stamp, Cutoff(now, minutes));
      GatherStored(keys, alerts);
      if |recent| == 0 {
        return Err(ErrNoRecentAlerts);
      }
      return Ok(recent);
    }
  }

  /** When the `KEYS` reply lists exactly the stored keys, listing returns
      every stored Alert once, and fails only on an empty store. */
  lemma AllAlertsWhenKeysCurrent(keys: seq<string>, alerts: map<string, Alert>)
    requires Enumerates(keys, alerts.Keys)
    ensures keys == [] <==> alerts == map[]
    ensures AllPresent(keys, alerts)
    ensures |Gather(keys, alerts)| == |alerts|
    ensures forall a :: a in Gather(keys, alerts) <==> a in alerts.Values
  {
    GatherEnumeration(keys, alerts);
  }

  /** The recent alerts do not depend on the order of the `KEYS` reply. */
  lemma {:induction false} RecentAlertsUnordered(keys: seq<string>, alerts: map<string, Alert>, cutoff: int, i: nat, j: nat)
    requires AllPresent(keys, alerts)
    requires i < j < |keys|
    ensures var swapped := keys[i := keys[j]][j := keys[i]];
            multiset(Since(Gather(swapped, alerts), Stamp, cutoff)) == multiset(Since(Gather(keys, alerts), Stamp, cutoff))
  {
    var swapped := keys[i := keys[j]][j := keys[i]];
    var g, h := Gather(keys, alerts), Gather(swapped, alerts);
    assert h == g[i := g[j]][j := g[i]];
    SincePermutation(g, h, Stamp, cutoff);
  }

  /** A longer window never loses an Alert that a shorter one returned. */
  lemma RecentAlertsGrowWithMinutes(keys: seq<string>, alerts: map<string, Alert>, now: int64, fewer: int64, more: int64)
    requires AllPresent(keys, alerts)
    requires fewer <= more
    ensures multiset(Since(Gather(keys, alerts), Stamp, Cutoff(now, fewer)))
            <= multiset(Since(Gather(keys, alerts), Stamp, Cutoff(now, more)))
  {
    WindowGrowsWithMinutes(Gather(keys, alerts), Stamp, now, fewer, more);
  }

  /** As written (int64 cutoff), one more minute can empty the result: an
      Alert created at `now` is in the window of 153722867309246263 minutes
      and not in that of one minute more. */
  lemma RecentAlertsAsWrittenShrink()
    ensures var now: int64 := 1_700_000_000;
            var m: int64 := 153722867309246263;
            var a := Alert("id", "title", "body", now);
            && Since([a], Stamp, CutoffAsWritten(now, m) as int) == [a]
            && Since([a], Stamp, CutoffAsWritten(now, m + 1) as int) == []
  {
    AsWrittenWindowShrinks();
  }
}
