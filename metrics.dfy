/** The per-agenda counters of `src/lib/actions/metrics.js`. Metric values
    are JSON because `updateMetric` stores whatever it is given. */
module MetricsActions {
  import opened Wrappers
  import opened Json
  import opened Schema
  import opened StoreModel
  import opened Edit

  /** What `updateMetric` does to the agenda: the key takes the value, with
      no check of the key or the value. */
  function UpdateMetricIn(a: Agenda, key: string, value: Json): (r: Agenda)
    ensures r.(metrics := a.metrics) == a
    ensures key in r.metrics && r.metrics[key] == value
    ensures forall k :: k in a.metrics && k != key ==> k in r.metrics && r.metrics[k] == a.metrics[k]
    ensures r.metrics.Keys == a.metrics.Keys + {key}
  {
    a.(metrics := a.metrics[key := value])
  }

  /** The count a key holds: its value when that is a number, else 0. */
  function Count(m: map<string, Json>, key: string): int {
    if key in m && m[key].JNum? then m[key].n else 0
  }

  /** What `incrementMetric` does to the agenda: the key's count plus one. */
  function IncrementMetricIn(a: Agenda, key: string): Agenda {
    a.(metrics := a.metrics[key := JNum(Count(a.metrics, key) + 1)])
  }

  /** An increment adds one to the key's count, turns an absent or
      non-numeric value into 1, and leaves the other keys alone. */
  lemma IncrementSpec(a: Agenda, key: string)
    ensures var r := IncrementMetricIn(a, key);
      && r.(metrics := a.metrics) == a
      && Count(r.metrics, key) == Count(a.metrics, key) + 1
      && (key !in a.metrics || !a.metrics[key].JNum? ==> r.metrics[key] == JNum(1))
      && forall k :: k in a.metrics && k != key ==> k in r.metrics && r.metrics[k] == a.metrics[k]
  {
  }

  function IncrementTimes(a: Agenda, key: string, n: nat): Agenda
    decreases n
  {
    if n == 0 then a else IncrementMetricIn(IncrementTimes(a, key, n - 1), key)
  }

  /** n increments add n to the count. */
  lemma {:induction false} IncrementTimesSpec(a: Agenda, key: string, n: nat)
    ensures Count(IncrementTimes(a, key, n).metrics, key) == Count(a.metrics, key) + n
    ensures IncrementTimes(a, key, n).(metrics := a.metrics) == a
    decreases n
  {
    if n > 0 {
      IncrementTimesSpec(a, key, n - 1);
      IncrementSpec(IncrementTimes(a, key, n - 1), key);
    }
  }

  /** Setting a number and incrementing gives that number plus one. */
  lemma UpdateThenIncrement(a: Agenda, key: string, n: int)
    ensures IncrementMetricIn(UpdateMetricIn(a, key, JNum(n)), key).metrics[key] == JNum(n + 1)
  {
  }

  /** `updateMetric` as handed to `store.update`. */
  function UpdateMetric(d: Document, agendaId: string, key: string, value: Json, t: Time): (r: Step)
    ensures MapsFocus(d, Commit(r), agendaId, a => UpdateMetricIn(a, key, value))
  {
    var f := (a: Agenda) => UpdateMetricIn(a, key, value);
    InActiveAgendaEffect(d, agendaId, f, t.iso);
    InActiveAgenda(d, agendaId, f, t.iso)
  }

  /** `incrementMetric` as handed to `store.update`. */
  function IncrementMetric(d: Document, agendaId: string, key: string, t: Time): (r: Step)
    ensures MapsFocus(d, Commit(r), agendaId, a => IncrementMetricIn(a, key))
  {
    var f := (a: Agenda) => IncrementMetricIn(a, key);
    InActiveAgendaEffect(d, agendaId, f, t.iso);
    InActiveAgenda(d, agendaId, f, t.iso)
  }
}
