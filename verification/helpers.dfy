/**
 * The two computations of utils/helpers.py that the discovery tool relies
 * on: the port range check and the progress figures.
 */
module Helpers {
  import Decimal
  import Device

  /** validate_port: the same range the credential check enforces. */
  function ValidatePort(port: int): (r: bool)
    ensures r <==> Device.ValidPort(port)
  {
    1 <= port <= 65535
  }

  datatype Progress = Progress(current: int, total: int, percentage: real, remaining: int)

  /**
   * calculate_progress: all zeros when there is nothing to do; otherwise the
   * inputs echoed, what is left, and the share done in percent to one decimal.
   */
  function CalculateProgress(current: int, total: int): (r: Progress)
    ensures total == 0 ==> r == Progress(0, 0, 0.0, 0)
    ensures total != 0 ==> r.current == current && r.total == total && r.remaining == total - current
    ensures total != 0 ==> r.percentage == Decimal.Round1((current as real) / (total as real) * 100.0)
    ensures total != 0 ==> -0.05 <= r.percentage - (current as real) / (total as real) * 100.0 <= 0.05
  {
    if total == 0 then Progress(0, 0, 0.0, 0)
    else Progress(current, total, Decimal.Round1((current as real) / (total as real) * 100.0), total - current)
  }

  /** Progress part of the way through stays within 0 and 100 percent, and reaches 100 at the end. */
  lemma ProgressInRange(current: int, total: int)
    requires 0 <= current <= total
    ensures 0.0 <= CalculateProgress(current, total).percentage <= 100.0
    ensures 0 < current == total ==> CalculateProgress(current, total).percentage == 100.0
    ensures CalculateProgress(current, total).remaining >= 0
  {
    if total > 0 {
      var p := (current as real) / (total as real) * 100.0;
      assert 0.0 <= p <= 100.0;
      Decimal.RoundMonotone(0.0, p);
      Decimal.RoundMonotone(p, 100.0);
      Decimal.RoundExact(0);
      Decimal.RoundExact(1000);
      if current == total {
        assert (total as real) / (total as real) == 1.0;
        assert 1000 as real / 10.0 == 100.0;
      }
    }
  }
}
