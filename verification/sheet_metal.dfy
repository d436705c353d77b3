/** Sheet-metal detection (Form1.cs, `HasSheetMetalFeature`): walks the part's feature
    tree from the first feature and stops at the first feature whose type name is
    exactly `SheetMetal`. The linked `FirstFeature`/`GetNextFeature` chain is modelled
    as the sequence of the features' type names, in tree order. */
module SheetMetal {

  const SheetMetalTypeName := "SheetMetal"

  /** Some feature is a sheet-metal feature (exact, case-sensitive comparison). */
  predicate IsSheetMetal(features: seq<string>) {
    exists i :: 0 <= i < |features| && features[i] == SheetMetalTypeName
  }

  /** How many features the walk reads: up to and including the first sheet-metal
      feature, or all of them when there is none. */
  function FeaturesRead(features: seq<string>): (n: nat)
    ensures n <= |features|
    ensures forall i :: 0 <= i < n - 1 ==> features[i] != SheetMetalTypeName
    ensures n < |features| ==> n > 0 && features[n - 1] == SheetMetalTypeName
    ensures n == |features| ==> (IsSheetMetal(features) <==> n > 0 && features[n - 1] == SheetMetalTypeName)
  {
    if features == [] then 0
    else if features[0] == SheetMetalTypeName then 1
    else
      var n := FeaturesRead(features[1..]);
      assert forall i :: 1 <= i < |features| ==> features[i] == features[1..][i - 1];
      1 + n
  }

  /** The walk itself: returns whether a sheet-metal feature was met and how many
      features were read. */
  method HasSheetMetalFeature(features: seq<string>) returns (found: bool, read: nat)
    ensures found <==> IsSheetMetal(features)
    ensures read == FeaturesRead(features)
  {
    read := 0;
    while read < |features|
      invariant read <= |features|
      invariant forall i :: 0 <= i < read ==> features[i] != SheetMetalTypeName
      invariant FeaturesRead(features) == read + FeaturesRead(features[read..])
    {
      ReadOneMore(features, read);
      if features[read] == SheetMetalTypeName {
        return true, read + 1;
      }
      read := read + 1;
    }
    return false, read;
  }

  lemma ReadOneMore(features: seq<string>, k: nat)
    requires k < |features|
    ensures FeaturesRead(features[k..]) ==
              if features[k] == SheetMetalTypeName then 1 else 1 + FeaturesRead(features[k + 1..])
  {
    assert features[k..][1..] == features[k + 1..];
  }

  /** Short circuit: once a sheet-metal feature has been read, whatever follows it is
      never read and cannot change the answer. */
  lemma {:induction false} LaterFeaturesIgnored(features: seq<string>, rest: seq<string>)
    requires IsSheetMetal(features)
    ensures IsSheetMetal(features + rest)
    ensures FeaturesRead(features + rest) == FeaturesRead(features)
  {
    if features[0] == SheetMetalTypeName {
      assert (features + rest)[0] == SheetMetalTypeName;
    } else {
      assert (features + rest)[1..] == features[1..] + rest;
      var i :| 0 <= i < |features| && features[i] == SheetMetalTypeName;
      assert features[1..][i - 1] == SheetMetalTypeName;
      LaterFeaturesIgnored(features[1..], rest);
      assert (features + rest)[i] == SheetMetalTypeName;
    }
  }
}
