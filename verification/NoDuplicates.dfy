/** Lists of numbers in which none occurs twice. */
module NoDuplicates {

  predicate NoDup(l: seq<nat>) {
    forall i, j :: 0 <= i < j < |l| ==> l[i] != l[j]
  }
}
