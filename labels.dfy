/** The display names of the season selector's options. */
module Labels {

  /** The name shown for a selector value: the "all seasons" caption for the
      sentinel 0, otherwise the name of spring, summer, autumn or winter. */
  function SeasonLabel(x: int): (name: string)
    requires 0 <= x <= 4
    ensures name == "Semua Musim" <==> x == 0
  {
    if x == 0 then "Semua Musim" else ["Semi", "Panas", "Gugur", "Dingin"][x - 1]
  }

  /** Distinct options carry distinct names, so the selector is unambiguous. */
  lemma SeasonLabelInjective(x: int, y: int)
    requires 0 <= x <= 4 && 0 <= y <= 4
    ensures SeasonLabel(x) == SeasonLabel(y) <==> x == y
  {
    if x != y {
      var a, b := SeasonLabel(x), SeasonLabel(y);
      assert a[0] != b[0] || a[1] != b[1] || |a| != |b|;
    }
  }
}
