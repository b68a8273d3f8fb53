/** The project mapping of `discover_projects` in scripts/grab_archive.py: which of the
    `.project` files found in the folder serves each tier. The directory listing itself
    is the input `candidates`. */
module Discovery {
  import opened Text

  predicate IsSep(c: char)
  {
    c == '\\' || c == '/'
  }

  /** `os.path.basename` on Windows: what follows the last separator. */
  function Basename(p: string): string
    decreases |p|
  {
    if |p| == 0 || IsSep(p[|p| - 1]) then ""
    else Basename(p[..|p| - 1]) + [p[|p| - 1]]
  }

  /** The base name is the longest suffix without a separator. */
  lemma {:induction false} BasenameShape(p: string)
    ensures var r := Basename(p);
            |r| <= |p| && r == p[|p| - |r|..] &&
            (forall i :: 0 <= i < |r| ==> !IsSep(r[i])) &&
            (|r| < |p| ==> IsSep(p[|p| - |r| - 1]))
    decreases |p|
  {
    if |p| > 0 && !IsSep(p[|p| - 1]) {
      var q := p[..|p| - 1];
      BasenameShape(q);
      var rq := Basename(q);
      assert q[|q| - |rq|..] + [p[|p| - 1]] == p[|p| - |rq| - 1..];
    }
  }

  predicate Names(p: string, key: string)
  {
    Lower(Basename(p)) == key
  }

  /** `by_name.get(key)` for the dictionary built over `candidates`: a later candidate
      with the same lower-cased base name replaces an earlier one. */
  function ByName(candidates: seq<string>, key: string): Option<string>
    decreases |candidates|
  {
    if |candidates| == 0 then None
    else if Names(candidates[|candidates| - 1], key) then Some(candidates[|candidates| - 1])
    else ByName(candidates[..|candidates| - 1], key)
  }

  /** The lookup finds a candidate exactly when one has that name, and it is the last such. */
  lemma {:induction false} ByNameLastWins(candidates: seq<string>, key: string)
    ensures ByName(candidates, key).None? <==> forall i :: 0 <= i < |candidates| ==> !Names(candidates[i], key)
    ensures ByName(candidates, key).Some? ==>
              exists i :: 0 <= i < |candidates| && candidates[i] == ByName(candidates, key).value &&
                          Names(candidates[i], key) &&
                          forall j :: i < j < |candidates| ==> !Names(candidates[j], key)
    decreases |candidates|
  {
    if |candidates| > 0 {
      var k := |candidates| - 1;
      var front := candidates[..k];
      ByNameLastWins(front, key);
      if !Names(candidates[k], key) {
        if ByName(front, key).Some? {
          var i :| 0 <= i < |front| && front[i] == ByName(front, key).value && Names(front[i], key) &&
                   forall j :: i < j < |front| ==> !Names(front[j], key);
          assert candidates[i] == front[i];
          assert forall j :: i < j < |candidates| ==> !Names(candidates[j], key) by {
            forall j | i < j < |candidates|
              ensures !Names(candidates[j], key)
            {
              if j < k {
                assert candidates[j] == front[j];
              }
            }
          }
        } else {
          forall i | 0 <= i < |candidates|
            ensures !Names(candidates[i], key)
          {
            if i < k {
              assert candidates[i] == front[i];
            }
          }
        }
      }
    }
  }

  datatype Mapping = Mapping(dev: string, staging: string, prod: string)

  datatype Discovery = Found(mapping: Mapping) | Failed(msg: string)

  const DevFile: string := "plc_dev.project"
  const StagingFile: string := "plc_stg.project"
  const ProdFile: string := "plc_prod.project"

  /** The tiers without a project file, in the order dev, staging, prod. */
  function Missing(candidates: seq<string>): seq<string>
  {
    (if ByName(candidates, DevFile).None? then ["dev"] else []) +
    (if ByName(candidates, StagingFile).None? then ["staging"] else []) +
    (if ByName(candidates, ProdFile).None? then ["prod"] else [])
  }

  /** `discover_projects` over the `.project` files found in `folder`. */
  function Discover(folder: string, candidates: seq<string>): Discovery
  {
    if |candidates| == 0 then Failed("No .project files found in: " + folder)
    else if |Missing(candidates)| > 0 then Failed("Missing required projects: " + Join(", ", Missing(candidates)))
    else Found(Mapping(ByName(candidates, DevFile).value, ByName(candidates, StagingFile).value,
                       ByName(candidates, ProdFile).value))
  }

  /** The projects are found exactly when there is a file for every tier, and each tier
      gets a candidate with its name (the last one); otherwise the error names what is
      missing. */
  lemma DiscoverOutcome(folder: string, candidates: seq<string>)
    ensures Discover(folder, candidates).Found? <==>
              (exists i :: 0 <= i < |candidates| && Names(candidates[i], DevFile)) &&
              (exists i :: 0 <= i < |candidates| && Names(candidates[i], StagingFile)) &&
              (exists i :: 0 <= i < |candidates| && Names(candidates[i], ProdFile))
    ensures var d := Discover(folder, candidates);
            d.Found? ==> d.mapping.dev in candidates && Names(d.mapping.dev, DevFile) &&
                         d.mapping.staging in candidates && Names(d.mapping.staging, StagingFile) &&
                         d.mapping.prod in candidates && Names(d.mapping.prod, ProdFile)
    ensures |candidates| == 0 ==> Discover(folder, candidates) == Failed("No .project files found in: " + folder)
    ensures var m := Missing(candidates);
            ("dev" in m <==> forall i :: 0 <= i < |candidates| ==> !Names(candidates[i], DevFile)) &&
            ("staging" in m <==> forall i :: 0 <= i < |candidates| ==> !Names(candidates[i], StagingFile)) &&
            ("prod" in m <==> forall i :: 0 <= i < |candidates| ==> !Names(candidates[i], ProdFile))
  {
    ByNameLastWins(candidates, DevFile);
    ByNameLastWins(candidates, StagingFile);
    ByNameLastWins(candidates, ProdFile);
  }
}
