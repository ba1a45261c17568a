/** The experiment metadata the control-run extractor reads out of a result
    file's path: the experiment id, the horizontal grid resolution in metres
    and the RCP scenario, each the group of a lazy regular-expression search
    over the whole path (`id_(.+?)_`, `gris_g(.+?)m`, `rcp_(.+?)_`), the last
    two converted to integers. */
module FilenameMetadata {
  import opened Wrappers
  import LazySearch
  import Decimal

  const IdPrefix: string := "id_"
  const IdTerminator: char := '_'
  const ResolutionPrefix: string := "gris_g"
  const ResolutionTerminator: char := 'm'
  const RcpPrefix: string := "rcp_"
  const RcpTerminator: char := '_'

  datatype Metadata = Metadata(experiment: string, resolution: nat, rcp: nat)

  datatype Field = ExperimentId | Resolution | Rcp

  datatype Error =
    | NoMatch(field: Field)                    // the search found nothing
    | NotAnInteger(field: Field, text: string) // the group is not a decimal integer

  /** g is the group of the first match of P(.+?)T in path. */
  ghost predicate IsFirstGroup(p: string, t: char, path: string, g: string) {
    exists i: nat, k: nat :: LazySearch.IsFirstMatch(p, t, path, i, k) && g == path[i + |p|..i + |p| + k]
  }

  /** The pattern P(.+?)T matches nowhere in path. */
  ghost predicate NoMatchIn(p: string, t: char, path: string) {
    forall i: nat, k: nat :: !LazySearch.MatchAt(p, t, path, i, k)
  }

  /** The group of P(.+?)T converted to an integer, as `int(...)` does. */
  function IntegerGroup(field: Field, p: string, t: char, path: string): (r: Result<nat, Error>)
    ensures r == Failure(NoMatch(field)) <==> NoMatchIn(p, t, path)
    ensures r.Failure? && r.error.NotAnInteger? ==>
      r.error.field == field && IsFirstGroup(p, t, path, r.error.text) && !Decimal.AllDigits(r.error.text)
    ensures r.Success? ==> exists g :: IsFirstGroup(p, t, path, g) && Decimal.AllDigits(g)
                                       && Decimal.ValueOf(g) == r.value
    ensures r.Failure? ==> r.error.field == field
    ensures (exists g :: IsFirstGroup(p, t, path, g) && Decimal.AllDigits(g)) ==> r.Success?
  {
    match LazySearch.Search(p, t, path)
    case None => Failure(NoMatch(field))
    case Some(g) =>
      LazySearch.SearchGroupShape(p, t, path);
      forall g' | IsFirstGroup(p, t, path, g')
        ensures g' == g
      {
        var i: nat, k: nat :| LazySearch.IsFirstMatch(p, t, path, i, k) && g' == path[i + |p|..i + |p| + k];
        LazySearch.SearchReportsFirstMatch(p, t, path, i, k);
      }
      match Decimal.ParseNat(g)
      case None => Failure(NotAnInteger(field, g))
      case Some(n) => Success(n)
  }

  /** Reads the three fields in the order the script does: experiment id,
      then resolution, then RCP. The first one that fails ends the run. */
  function ParseMetadata(path: string): (r: Result<Metadata, Error>)
    ensures NoMatchIn(IdPrefix, IdTerminator, path) ==> r == Failure(NoMatch(ExperimentId))
    ensures r.Success? ==> IsFirstGroup(IdPrefix, IdTerminator, path, r.value.experiment)
    ensures r.Success? ==> exists g :: IsFirstGroup(ResolutionPrefix, ResolutionTerminator, path, g)
                                       && Decimal.AllDigits(g) && Decimal.ValueOf(g) == r.value.resolution
    ensures r.Success? ==> exists g :: IsFirstGroup(RcpPrefix, RcpTerminator, path, g)
                                       && Decimal.AllDigits(g) && Decimal.ValueOf(g) == r.value.rcp
    ensures !NoMatchIn(IdPrefix, IdTerminator, path)
            && IntegerGroup(Resolution, ResolutionPrefix, ResolutionTerminator, path).Failure? ==>
      r == Failure(IntegerGroup(Resolution, ResolutionPrefix, ResolutionTerminator, path).error)
    ensures !NoMatchIn(IdPrefix, IdTerminator, path)
            && IntegerGroup(Resolution, ResolutionPrefix, ResolutionTerminator, path).Success?
            && IntegerGroup(Rcp, RcpPrefix, RcpTerminator, path).Failure? ==>
      r == Failure(IntegerGroup(Rcp, RcpPrefix, RcpTerminator, path).error)
    ensures r.Success? <==>
      && !NoMatchIn(IdPrefix, IdTerminator, path)
      && IntegerGroup(Resolution, ResolutionPrefix, ResolutionTerminator, path).Success?
      && IntegerGroup(Rcp, RcpPrefix, RcpTerminator, path).Success?
  {
    var experiment :- match LazySearch.Search(IdPrefix, IdTerminator, path)
                      case None => Failure(NoMatch(ExperimentId))
                      case Some(g) => Success(g);
    var resolution :- IntegerGroup(Resolution, ResolutionPrefix, ResolutionTerminator, path);
    var rcp :- IntegerGroup(Rcp, RcpPrefix, RcpTerminator, path);
    Success(Metadata(experiment, resolution, rcp))
  }

  /** The lazy group may begin with its own terminator: in "id__x_" the
      experiment id is "_x", not the empty string and not "_x_". */
  lemma GroupMayStartWithTerminator()
    ensures LazySearch.Search(IdPrefix, IdTerminator, "id__x_") == Some("_x")
  {
    var s := "id__x_";
    assert s[0..3] == IdPrefix;
    assert !LazySearch.GroupEndsAt(IdTerminator, s, 3, 1);
    assert LazySearch.IsFirstMatch(IdPrefix, IdTerminator, s, 0, 2);
    LazySearch.SearchReportsFirstMatch(IdPrefix, IdTerminator, s, 0, 2);
    assert s[3..5] == "_x";
  }

  /** The resolution is read as an integer from the group before the
      first "m" after "gris_g". */
  lemma ResolutionExample()
    ensures IntegerGroup(Resolution, ResolutionPrefix, ResolutionTerminator, "ts_gris_g900m.nc") == Success(900)
  {
    var s := "ts_gris_g900m.nc";
    assert s[3..9] == ResolutionPrefix;
    forall i': nat, k': nat | i' < 3
      ensures !LazySearch.MatchAt(ResolutionPrefix, ResolutionTerminator, s, i', k')
    {
      assert s[i'..i' + 6] != ResolutionPrefix by {
        assert s[i' + 1] != ResolutionPrefix[1];
      }
    }
    assert !LazySearch.GroupEndsAt(ResolutionTerminator, s, 9, 1);
    assert !LazySearch.GroupEndsAt(ResolutionTerminator, s, 9, 2);
    assert LazySearch.IsFirstMatch(ResolutionPrefix, ResolutionTerminator, s, 3, 3);
    LazySearch.SearchReportsFirstMatch(ResolutionPrefix, ResolutionTerminator, s, 3, 3);
    assert s[9..12] == "900";
    assert Decimal.ValueOf("900") == 900 by {
      assert "900"[..2] == "90" && "90"[..1] == "9" && "9"[..0] == "";
    }
  }
}
