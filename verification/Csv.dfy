/** The comma-separated parameters of the managed-upgrade commands. */
module Csv {
  import opened Text

  /** A value that survives the trip through a comma-separated parameter. */
  predicate IsField(s: string) {
    s != "" && Trimmed(s) && ',' !in s
  }

  /** The trimmed, non-empty parts. */
  function Fields(parts: seq<string>): seq<string> {
    if parts == [] then []
    else
      var init := Fields(parts[..|parts| - 1]);
      var field := Trim(parts[|parts| - 1]);
      if field == "" then init else init + [field]
  }

  lemma {:induction false} FieldsOfFields(names: seq<string>)
    requires forall i :: 0 <= i < |names| ==> IsField(names[i])
    ensures Fields(names) == names
  {
    if names != [] {
      var init := names[..|names| - 1];
      FieldsOfFields(init);
      assert IsField(names[|names| - 1]);
      TrimOfTrimmed(names[|names| - 1]);
      assert names == init + [names[|names| - 1]];
    }
  }

  lemma {:induction false} FieldsAreFields(parts: seq<string>)
    requires FreeOf(parts, ',')
    ensures forall i :: 0 <= i < |Fields(parts)| ==> IsField(Fields(parts)[i])
  {
    if parts != [] {
      var init, last := parts[..|parts| - 1], parts[|parts| - 1];
      assert forall i :: 0 <= i < |init| ==> init[i] == parts[i];
      FieldsAreFields(init);
      TrimIsTrimmed(last);
      TrimKeepsFreeOf(last, ',');
    }
  }

  lemma {:induction false} FieldsOfSpace(value: string)
    requires AllSpace(value)
    ensures Fields(Split(value, ',')) == []
  {
    assert forall i :: 0 <= i < |value| ==> value[i] != ',';
    SplitAfterPart(value, "", ',');
    TrimEmptyIffAllSpace(value);
  }

  method SplitCSV(value: string) returns (result: seq<string>)
    ensures result == Fields(Split(value, ','))
  {
    if Trim(value) == "" {
      TrimEmptyIffAllSpace(value);
      FieldsOfSpace(value);
      return [];
    }
    var parts := Split(value, ',');
    result := [];
    for i := 0 to |parts|
      invariant result == Fields(parts[..i])
    {
      assert parts[..i + 1][..i] == parts[..i];
      var trimmed := Trim(parts[i]);
      if trimmed == "" {
        continue;
      }
      result := result + [trimmed];
    }
    assert parts[..|parts|] == parts;
  }

  /** Splitting inverts joining with commas; and whatever the parameter was, the names it
      yields are proper fields, so joining them and splitting again changes nothing. */
  lemma SplitInvertsJoin(names: seq<string>)
    requires forall i :: 0 <= i < |names| ==> IsField(names[i])
    ensures Fields(Split(Join(names, ','), ',')) == names
  {
    if names == [] {
      FieldsOfSpace("");
    } else {
      assert FreeOf(names, ',');
      SplitOfJoin(names, ',');
      FieldsOfFields(names);
    }
  }

  lemma SplitNormalises(value: string)
    ensures var names := Fields(Split(value, ','));
            && (forall i :: 0 <= i < |names| ==> IsField(names[i]))
            && Fields(Split(Join(names, ','), ',')) == names
  {
    JoinOfSplit(value, ',');
    FieldsAreFields(Split(value, ','));
    SplitInvertsJoin(Fields(Split(value, ',')));
  }

  /** The names with white space around them. */
  function Padded(names: seq<string>, before: seq<string>, behind: seq<string>): (padded: seq<string>)
    requires |names| == |before| == |behind|
    ensures |padded| == |names|
    ensures forall i :: 0 <= i < |names| ==> padded[i] == before[i] + names[i] + behind[i]
  {
    seq(|names|, i requires 0 <= i < |names| => before[i] + names[i] + behind[i])
  }

  lemma PaddedAlike(names: seq<string>, before: seq<string>, behind: seq<string>)
    requires |names| == |before| == |behind|
    requires forall i :: 0 <= i < |names| ==> ',' !in names[i] && AllSpace(before[i]) && AllSpace(behind[i])
    ensures var padded := Padded(names, before, behind);
            FreeOf(padded, ',') && forall i :: 0 <= i < |names| ==> Trim(padded[i]) == Trim(names[i])
  {
    forall i | 0 <= i < |names| ensures Trim(Padded(names, before, behind)[i]) == Trim(names[i]) {
      TrimOfPadded(before[i], names[i], behind[i]);
    }
  }

  /** What is kept of a list of parts depends on what they are when trimmed. */
  lemma {:induction false} FieldsOfTrimmed(a: seq<string>, b: seq<string>)
    requires |a| == |b| && forall i :: 0 <= i < |a| ==> Trim(a[i]) == Trim(b[i])
    ensures Fields(a) == Fields(b)
  {
    if a != [] {
      FieldsOfTrimmed(a[..|a| - 1], b[..|b| - 1]);
    }
  }

  /** Names come back whatever white space is put around them before they are joined, and whatever
      blank parts stand between them. */
  lemma SplitIgnoresPadding(names: seq<string>, before: seq<string>, behind: seq<string>)
    requires |names| == |before| == |behind| && names != []
    requires forall i :: 0 <= i < |names| ==> names[i] == "" || IsField(names[i])
    requires forall i :: 0 <= i < |names| ==> AllSpace(before[i]) && AllSpace(behind[i])
    ensures Fields(Split(Join(Padded(names, before, behind), ','), ',')) == NonEmpty(names)
  {
    var padded := Padded(names, before, behind);
    PaddedAlike(names, before, behind);
    SplitOfJoin(padded, ',');
    FieldsOfTrimmed(padded, names);
    FieldsAreNonEmpty(names);
  }

  function NonEmpty(names: seq<string>): seq<string> {
    if names == [] then [] else (if names[0] == "" then [] else [names[0]]) + NonEmpty(names[1..])
  }

  lemma {:induction false} NonEmptyOfFields(names: seq<string>)
    requires forall i :: 0 <= i < |names| ==> names[i] != ""
    ensures NonEmpty(names) == names
  {
    if names != [] {
      NonEmptyOfFields(names[1..]);
    }
  }

  lemma {:induction false} NonEmptyOfSnoc(names: seq<string>, name: string)
    ensures NonEmpty(names + [name]) == NonEmpty(names) + if name == "" then [] else [name]
  {
    if names == [] {
      assert [] + [name] == [name] && [name][1..] == [];
    } else {
      NonEmptyOfSnoc(names[1..], name);
      assert (names + [name])[1..] == names[1..] + [name];
    }
  }

  lemma {:induction false} FieldsAreNonEmpty(names: seq<string>)
    requires forall i :: 0 <= i < |names| ==> names[i] == "" || IsField(names[i])
    ensures Fields(names) == NonEmpty(names)
  {
    if names != [] {
      var n := |names| - 1;
      FieldsAreNonEmpty(names[..n]);
      NonEmptyOfSnoc(names[..n], names[n]);
      assert names == names[..n] + [names[n]];
    }
  }
}
