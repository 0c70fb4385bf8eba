/** The settings dialog's save check: the two solver ports and the data
    frequency are read as integers and accepted only when the ports differ,
    both lie in the unprivileged range, and the frequency is positive. The
    checks run in that order and the first failure is what gets reported. */
module Settings {
  import opened Wrappers
  import opened Text

  const MinPort := 1024
  const MaxPort := 65535

  /** The outcome of `save_settings`: accepted with the values read, or the
      reason the dialog stays open. */
  datatype Verdict =
    | Accepted(saPort: int, tsPort: int, dataFrequency: int)
    | NotInteger
    | SamePorts
    | PortOutOfRange
    | BadFrequency

  predicate InPortRange(p: int) {
    MinPort <= p <= MaxPort
  }

  /** `save_settings` on the three field texts. */
  function SaveSettings(saText: string, tsText: string, frequencyText: string): (v: Verdict)
    ensures v.Accepted? ==> ParseInt(saText) == Some(v.saPort) && ParseInt(tsText) == Some(v.tsPort) &&
                            ParseInt(frequencyText) == Some(v.dataFrequency)
    ensures v.Accepted? ==> v.saPort != v.tsPort && InPortRange(v.saPort) && InPortRange(v.tsPort) && v.dataFrequency > 0
    ensures v == NotInteger <==> ParseInt(saText).None? || ParseInt(tsText).None? || ParseInt(frequencyText).None?
  {
    var sa := ParseInt(saText);
    var ts := ParseInt(tsText);
    var frequency := ParseInt(frequencyText);
    if sa.None? || ts.None? || frequency.None? then NotInteger
    else if sa.value == ts.value then SamePorts
    else if !InPortRange(sa.value) || !InPortRange(ts.value) then PortOutOfRange
    else if frequency.value <= 0 then BadFrequency
    else Accepted(sa.value, ts.value, frequency.value)
  }

  /** For integer fields, the dialog is accepted exactly when every check
      passes, and then with the values typed. */
  lemma AcceptedIff(sa: int, ts: int, frequency: int)
    ensures SaveSettings(ShowInt(sa), ShowInt(ts), ShowInt(frequency)).Accepted? <==>
            sa != ts && InPortRange(sa) && InPortRange(ts) && frequency > 0
    ensures SaveSettings(ShowInt(sa), ShowInt(ts), ShowInt(frequency)).Accepted? ==>
            SaveSettings(ShowInt(sa), ShowInt(ts), ShowInt(frequency)) == Accepted(sa, ts, frequency)
  {
    ParseShow(sa);
    ParseShow(ts);
    ParseShow(frequency);
  }

  /** The checks are reported in order: equal ports win over a bad range,
      and a bad range over a bad frequency. */
  lemma FirstFailureReported(sa: int, ts: int, frequency: int)
    ensures sa == ts ==> SaveSettings(ShowInt(sa), ShowInt(ts), ShowInt(frequency)) == SamePorts
    ensures sa != ts && !(InPortRange(sa) && InPortRange(ts)) ==>
              SaveSettings(ShowInt(sa), ShowInt(ts), ShowInt(frequency)) == PortOutOfRange
    ensures sa != ts && InPortRange(sa) && InPortRange(ts) && frequency <= 0 ==>
              SaveSettings(ShowInt(sa), ShowInt(ts), ShowInt(frequency)) == BadFrequency
  {
    ParseShow(sa);
    ParseShow(ts);
    ParseShow(frequency);
  }
}
