/**
 * FlowData.py `extract_peak_capacity`: the peak rated capacity stated in the
 * report's narrative, read from the first paragraph that states one.
 *
 * The regular expression is a parameter: `search` maps a paragraph's text to the
 * text of the pattern's numeric group (digits, commas and an optional decimal
 * part) when the pattern occurs in it, and to None otherwise. `float()` of the
 * comma-free text is the library's parser, None where Python raises ValueError.
 */
module FlowCapacity {
  import opened Wrappers
  import opened Strings

  /** The capacity paragraph `para` states: its matched number without commas,
      converted; None when the pattern does not occur or the conversion raises. */
  function StatedCapacity(search: string -> Option<string>, parseFloat: string -> Option<real>, para: string): Option<real>
  {
    match search(para)
    case None => None
    case Some(group) => parseFloat(RemoveChar(group, ','))
  }

  /** The capacity of the first of `paras` that states one. */
  function CapacityOf(search: string -> Option<string>, parseFloat: string -> Option<real>, paras: seq<string>): Option<real>
  {
    if paras == [] then None
    else
      var v := StatedCapacity(search, parseFloat, paras[0]);
      if v.Some? then v else CapacityOf(search, parseFloat, paras[1..])
  }

  /** The loop over `doc.paragraphs` with its early return. */
  method ExtractPeakCapacity(search: string -> Option<string>, parseFloat: string -> Option<real>, paras: seq<string>)
    returns (capacity: Option<real>)
    ensures capacity == CapacityOf(search, parseFloat, paras)
  {
    var i := 0;
    while i < |paras|
      invariant 0 <= i <= |paras|
      invariant CapacityOf(search, parseFloat, paras) == CapacityOf(search, parseFloat, paras[i..])
    {
      assert paras[i..][1..] == paras[i + 1..];
      var m := search(paras[i]);
      if m.Some? {
        var valueStr := RemoveChar(m.value, ',');
        var v := parseFloat(valueStr);
        if v.Some? {
          return v;
        }
      }
      i := i + 1;
    }
    return None;
  }

  /** The result is the value stated by the first paragraph that yields one: every
      earlier paragraph either does not match or holds a number `float()` rejects.
      It is None exactly when no paragraph yields a value, in particular when no
      paragraph matches. */
  lemma {:induction false} CapacityShape(search: string -> Option<string>, parseFloat: string -> Option<real>, paras: seq<string>)
    ensures var cap := CapacityOf(search, parseFloat, paras);
      && (cap.Some? ==>
            exists k :: 0 <= k < |paras| && search(paras[k]).Some?
              && cap == parseFloat(RemoveChar(search(paras[k]).value, ','))
              && forall j :: 0 <= j < k ==> StatedCapacity(search, parseFloat, paras[j]).None?)
      && (cap.None? <==> forall k :: 0 <= k < |paras| ==> StatedCapacity(search, parseFloat, paras[k]).None?)
  {
    if paras != [] {
      var tail := paras[1..];
      CapacityShape(search, parseFloat, tail);
      assert forall k :: 1 <= k < |paras| ==> paras[k] == tail[k - 1];
      var cap := CapacityOf(search, parseFloat, paras);
      if StatedCapacity(search, parseFloat, paras[0]).None? && cap.Some? {
        var k :| 0 <= k < |tail| && search(tail[k]).Some?
          && cap == parseFloat(RemoveChar(search(tail[k]).value, ','))
          && forall j :: 0 <= j < k ==> StatedCapacity(search, parseFloat, tail[j]).None?;
        assert forall j :: 0 <= j < k + 1 ==> StatedCapacity(search, parseFloat, paras[j]).None? by {
          forall j | 0 <= j < k + 1 ensures StatedCapacity(search, parseFloat, paras[j]).None? {
            if j > 0 {
              assert paras[j] == tail[j - 1];
            }
          }
        }
        assert paras[k + 1] == tail[k];
      }
    }
  }

  /** No paragraph matching the pattern means no capacity. */
  lemma NoMatchNoCapacity(search: string -> Option<string>, parseFloat: string -> Option<real>, paras: seq<string>)
    requires forall k :: 0 <= k < |paras| ==> search(paras[k]).None?
    ensures CapacityOf(search, parseFloat, paras) == None
  {
    CapacityShape(search, parseFloat, paras);
  }
}
