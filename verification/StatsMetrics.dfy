/** The metric registry of `stats-writer.ts`, and metric maps in which an absent metric counts as zero. */
module StatsMetrics {
  datatype Metric = Allowed | Blocked | Quarantined | Reported | TotalAliases

  const METRICS := [Allowed, Blocked, Quarantined, Reported, TotalAliases]

  type Metrics = map<Metric, int>

  function Value(metrics: Metrics, m: Metric): int {
    if m in metrics then metrics[m] else 0
  }

  lemma EveryMetricListed(m: Metric)
    ensures m in METRICS
  {
    match m
    case Allowed => assert METRICS[0] == m;
    case Blocked => assert METRICS[1] == m;
    case Quarantined => assert METRICS[2] == m;
    case Reported => assert METRICS[3] == m;
    case TotalAliases => assert METRICS[4] == m;
  }
}
