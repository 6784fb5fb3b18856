/** What the clients of src/kvtest1/kvtest.go hand back, and its totals. */
module ClientResults {

  datatype ClntRes = ClntRes(nok: int, nmaybe: int)

  function TotalOk(rs: seq<ClntRes>): int {
    if rs == [] then 0 else TotalOk(rs[..|rs| - 1]) + rs[|rs| - 1].nok
  }

  function TotalMaybe(rs: seq<ClntRes>): int {
    if rs == [] then 0 else TotalMaybe(rs[..|rs| - 1]) + rs[|rs| - 1].nmaybe
  }

  function Total(rs: seq<ClntRes>): int {
    TotalOk(rs) + TotalMaybe(rs)
  }

  lemma TotalNext(rs: seq<ClntRes>, r: ClntRes)
    ensures TotalOk(rs + [r]) == TotalOk(rs) + r.nok && TotalMaybe(rs + [r]) == TotalMaybe(rs) + r.nmaybe
  {
    assert (rs + [r])[..|rs|] == rs;
  }
}
