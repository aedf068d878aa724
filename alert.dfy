/**
 * The alert record of the monitoring service: four text fields, a header
 * cleaned of known feed truncation artefacts on construction, and its two
 * fixed text renderings.
 */
module AlertModel {
  import opened Strings
  import opened Options

  /** A decoded service alert. Two alerts are equal exactly when all four fields are. */
  datatype Alert = Alert(header: string, description: string, cause: string, effect: string)

  /**
   * The field name handed to the duplicate filter: one of the four fields,
   * or any other name spelled out, read as `dict.get(name, "")` reads it.
   */
  datatype Field = Header | Description | Cause | Effect | Named(name: string)

  /** The text of field `f` of `a`. */
  function FieldOf(a: Alert, f: Field): string
  {
    match f
    case Header => a.header
    case Description => a.description
    case Cause => a.cause
    case Effect => a.effect
    case Named(n) =>
      if n == "header" then a.header
      else if n == "description" then a.description
      else if n == "cause" then a.cause
      else if n == "effect" then a.effect
      else ""
  }

  /** The three truncation artefacts, in the order in which they are removed. */
  const ThereSuffix: string := ": There i"
  const FSuffix: string := " f"
  const VSuffix: string := " v"

  /**
   * The header normaliser: strip surrounding whitespace, then remove the
   * three artefacts, each once at most and in their fixed order. The result
   * is a prefix of the stripped header and never longer than the raw one.
   */
  function NormalizeHeader(v: string): (r: string)
    ensures |r| <= |Strip(v)| <= |v|
    ensures StartsWith(Strip(v), r)
  {
    RemoveArtefacts(Strip(v))
  }

  /** The three `removesuffix` calls of the normaliser, in their order. */
  function RemoveArtefacts(s: string): (r: string)
    ensures StartsWith(s, r)
  {
    RemoveSuffix(RemoveSuffix(RemoveSuffix(s, ThereSuffix), FSuffix), VSuffix)
  }

  /** Everything that normalisation can cut off the stripped header: one of eight fixed tails. */
  const RemovableTails: set<string> :=
    {"", " v", " f", " v f", ": There i", " v: There i", " f: There i", " v f: There i"}

  /** The stripped header is the normalised header followed by one of the eight fixed tails. */
  lemma NormalizeRemovesFixedTail(v: string)
    ensures Strip(v) == NormalizeHeader(v) + Strip(v)[|NormalizeHeader(v)|..]
    ensures Strip(v)[|NormalizeHeader(v)|..] in RemovableTails
  {
    ArtefactTail(Strip(v));
  }

  lemma ArtefactTail(s0: string)
    ensures s0 == RemoveArtefacts(s0) + s0[|RemoveArtefacts(s0)|..]
    ensures s0[|RemoveArtefacts(s0)|..] in RemovableTails
  {
    var s1 := RemoveSuffix(s0, ThereSuffix);
    var s2 := RemoveSuffix(s1, FSuffix);
    var s3 := RemoveSuffix(s2, VSuffix);
    var t1 := if EndsWith(s0, ThereSuffix) then ThereSuffix else "";
    var t2 := if EndsWith(s1, FSuffix) then FSuffix else "";
    var t3 := if EndsWith(s2, VSuffix) then VSuffix else "";
    assert s0 == s1 + t1 && s1 == s2 + t2 && s2 == s3 + t3;
    assert s0 == s3 + (t3 + t2 + t1);
    assert s0[|s3|..] == t3 + t2 + t1;
    TailsAreRemovable(t3, t2, t1);
  }

  lemma TailsAreRemovable(t3: string, t2: string, t1: string)
    requires t3 == "" || t3 == VSuffix
    requires t2 == "" || t2 == FSuffix
    requires t1 == "" || t1 == ThereSuffix
    ensures t3 + t2 + t1 in RemovableTails
  {
    if t3 == "" {
      if t2 == "" {
        if t1 == "" { assert t3 + t2 + t1 == ""; } else { assert t3 + t2 + t1 == ": There i"; }
      } else {
        if t1 == "" { assert t3 + t2 + t1 == " f"; } else { assert t3 + t2 + t1 == " f: There i"; }
      }
    } else {
      if t2 == "" {
        if t1 == "" { assert t3 + t2 + t1 == " v"; } else { assert t3 + t2 + t1 == " v: There i"; }
      } else {
        if t1 == "" { assert t3 + t2 + t1 == " v f"; } else { assert t3 + t2 + t1 == " v f: There i"; }
      }
    }
  }

  /** A stripped header that ends in none of the artefacts is returned as just the stripped text. */
  lemma NormalizeWithoutArtefact(v: string)
    requires !EndsWith(Strip(v), ThereSuffix) && !EndsWith(Strip(v), FSuffix) && !EndsWith(Strip(v), VSuffix)
    ensures NormalizeHeader(v) == Strip(v)
  {
  }

  /**
   * A header ending in " v" loses exactly that " v": the two artefacts
   * checked before it cannot match a text that ends in 'v'.
   */
  lemma ArtefactsOnVEnding(y: string)
    ensures RemoveArtefacts(y + VSuffix) == y
  {
    var s := y + VSuffix;
    assert s[|s| - 1] == 'v';
    assert ThereSuffix[|ThereSuffix| - 1] == 'i' && FSuffix[|FSuffix| - 1] == 'f';
    assert !EndsWith(s, ThereSuffix);
    assert !EndsWith(s, FSuffix);
    assert s[|s| - 2..] == VSuffix;
    assert s[..|s| - 2] == y;
  }

  /**
   * The artefacts are removed in their fixed order and each once only: in a
   * header ending " f v" the " v" goes, and the " f" it uncovers stays.
   */
  lemma NormalizeOrder(x: string)
    requires x != [] && !IsSpace(x[0])
    ensures NormalizeHeader(x + " f v") == x + " f"
  {
    var s := x + " f v";
    assert s == (x + FSuffix) + VSuffix;
    assert s[0] == x[0] && s[|s| - 1] == 'v';
    StripTrimmed(s);
    ArtefactsOnVEnding(x + FSuffix);
  }

  /** A second copy of an artefact survives: only one is removed. */
  lemma NormalizeOnce(x: string)
    requires x != [] && !IsSpace(x[0])
    ensures NormalizeHeader(x + " v v") == x + " v"
  {
    var s := x + " v v";
    assert s == (x + VSuffix) + VSuffix;
    assert s[0] == x[0] && s[|s| - 1] == 'v';
    StripTrimmed(s);
    ArtefactsOnVEnding(x + VSuffix);
  }

  /**
   * Constructing an alert from decoded fields: the header is normalised,
   * the other three fields are stored as given.
   */
  function MakeAlert(header: string, description: string, cause: string, effect: string): Alert
  {
    Alert(NormalizeHeader(header), description, cause, effect)
  }

  /**
   * Only the header is normalised: the other three fields are stored as
   * given, and a header that is already trimmed and ends in no artefact is
   * stored as given too.
   */
  lemma MakeAlertNormalizesHeaderOnly(header: string, description: string, cause: string, effect: string)
    ensures var a := MakeAlert(header, description, cause, effect);
      a.header == NormalizeHeader(header) && a.description == description && a.cause == cause && a.effect == effect
    ensures Trimmed(header) && !EndsWith(header, ThereSuffix) && !EndsWith(header, FSuffix) && !EndsWith(header, VSuffix)
      ==> MakeAlert(header, description, cause, effect).header == header
  {
    if Trimmed(header) {
      StripTrimmed(header);
    }
  }

  /** The four-line display text of an alert. */
  function Format(a: Alert): string
  {
    "Header: " + a.header + "\nDescription: " + a.description + "\nCause: " + a.cause + "\nEffect: " + a.effect
  }

  /** The one-line text of an alert: header and description only. */
  function Str(a: Alert): string
  {
    "Header: " + a.header + ", Description: " + a.description
  }

  /** No field of `a` holds a line break. */
  predicate SingleLineFields(a: Alert)
  {
    '\n' !in a.header && '\n' !in a.description && '\n' !in a.cause && '\n' !in a.effect
  }

  /** The labelled lines of `Format`, one per field. */
  function FormatLines(a: Alert): seq<string>
  {
    ["Header: " + a.header, "Description: " + a.description, "Cause: " + a.cause, "Effect: " + a.effect]
  }

  /** Reading the four labelled lines back into an alert: the inverse of `Format`. */
  function ParseFormatted(s: string): Option<Alert>
  {
    var ls := Split(s, '\n');
    if |ls| == 4 && StartsWith(ls[0], "Header: ") && StartsWith(ls[1], "Description: ")
       && StartsWith(ls[2], "Cause: ") && StartsWith(ls[3], "Effect: ")
    then Some(Alert(ls[0][8..], ls[1][13..], ls[2][7..], ls[3][8..]))
    else None
  }

  /** `Format` is the four labelled lines joined by line breaks. */
  lemma FormatIsJoinedLines(a: Alert)
    ensures Format(a) == Join("\n", FormatLines(a))
  {
    var ls := FormatLines(a);
    assert ls[1..][1..][1..] == [ls[3]];
    assert Join("\n", ls[1..][1..]) == ls[2] + "\n" + ls[3];
    assert Join("\n", ls[1..]) == ls[1] + "\n" + (ls[2] + "\n" + ls[3]);
    assert Join("\n", ls) == ls[0] + "\n" + (ls[1] + "\n" + (ls[2] + "\n" + ls[3]));
    assert "\nDescription: " == "\n" + "Description: " && "\nCause: " == "\n" + "Cause: " && "\nEffect: " == "\n" + "Effect: ";
  }

  /** With single-line fields, `Format` splits back into exactly its four labelled lines. */
  lemma FormatSplitsIntoLines(a: Alert)
    requires SingleLineFields(a)
    ensures Split(Format(a), '\n') == FormatLines(a)
  {
    FormatIsJoinedLines(a);
    var ls := FormatLines(a);
    forall k | 0 <= k < |ls| ensures '\n' !in ls[k] {
      if k == 0 { assert ls[0] == "Header: " + a.header; }
    }
    SplitJoin(ls, '\n');
  }

  /** With single-line fields, `Format` loses nothing: parsing its text gives the alert back. */
  lemma FormatRoundTrip(a: Alert)
    requires SingleLineFields(a)
    ensures ParseFormatted(Format(a)) == Some(a)
  {
    FormatSplitsIntoLines(a);
    var ls := FormatLines(a);
    assert ls[0][8..] == a.header;
    assert ls[1][13..] == a.description;
    assert ls[2][7..] == a.cause;
    assert ls[3][8..] == a.effect;
  }

  /** The one-line text is the first two lines of the display text, joined by ", ". */
  lemma StrIsFirstTwoFormatLines(a: Alert)
    requires SingleLineFields(a)
    ensures var ls := Split(Format(a), '\n'); |ls| >= 2 && Str(a) == Join(", ", ls[..2])
  {
    FormatSplitsIntoLines(a);
    assert FormatLines(a)[..2][1..] == ["Description: " + a.description];
  }
}
