/** The column-name clean-up done before the upload: each name has its spaces
    replaced by underscores and is lower-cased. Letters are ASCII here. */
module Columns {

  /** Whether c is an ASCII capital letter. */
  predicate IsUpper(c: char)
  {
    'A' <= c <= 'Z'
  }

  /** str.lower() on one character: capitals map to small letters, every other
      character is kept. */
  function LowerChar(c: char): (r: char)
    ensures !IsUpper(r)
    ensures IsUpper(c) ==> r as int == c as int + 32
    ensures !IsUpper(c) ==> r == c
  {
    if IsUpper(c) then (c as int + 32) as char else c
  }

  /** str.replace(" ", "_"). */
  function ReplaceSpaces(s: string): (r: string)
    ensures |r| == |s|
    ensures forall i :: 0 <= i < |s| ==> r[i] == if s[i] == ' ' then '_' else s[i]
  {
    if s == [] then []
    else [if s[0] == ' ' then '_' else s[0]] + ReplaceSpaces(s[1..])
  }

  /** str.lower(). */
  function Lower(s: string): (r: string)
    ensures |r| == |s|
    ensures forall i :: 0 <= i < |s| ==> r[i] == LowerChar(s[i])
  {
    if s == [] then [] else [LowerChar(s[0])] + Lower(s[1..])
  }

  /** A name the clean-up leaves as it is: no space and no capital. */
  predicate IsClean(name: string)
  {
    forall i :: 0 <= i < |name| ==> name[i] != ' ' && !IsUpper(name[i])
  }

  /** c.replace(" ", "_").lower(): the result is clean, as long as the name,
      and each of its characters is an underscore where the name had a space
      and the lower-case of the name's character everywhere else. */
  function NormalizeColumn(name: string): (r: string)
    ensures |r| == |name|
    ensures IsClean(r)
    ensures forall i :: 0 <= i < |name| ==> r[i] == if name[i] == ' ' then '_' else LowerChar(name[i])
  {
    Lower(ReplaceSpaces(name))
  }

  /** df.columns = [c.replace(" ", "_").lower() for c in df.columns]: every
      name cleaned, in column order. */
  function NormalizeColumns(columns: seq<string>): (r: seq<string>)
    ensures |r| == |columns|
    ensures forall i :: 0 <= i < |columns| ==> r[i] == NormalizeColumn(columns[i])
  {
    if columns == [] then [] else [NormalizeColumn(columns[0])] + NormalizeColumns(columns[1..])
  }

  /** A name is left unchanged exactly when it is already clean. */
  lemma {:induction false} NormalizeFixesExactlyClean(name: string)
    ensures NormalizeColumn(name) == name <==> IsClean(name)
  {
    var r := NormalizeColumn(name);
    if IsClean(name) {
      forall i | 0 <= i < |name| ensures r[i] == name[i] {
        assert name[i] != ' ' && !IsUpper(name[i]);
      }
    }
  }

  /** Cleaning twice is cleaning once. */
  lemma {:induction false} NormalizeIdempotent(name: string)
    ensures NormalizeColumn(NormalizeColumn(name)) == NormalizeColumn(name)
  {
    NormalizeFixesExactlyClean(NormalizeColumn(name));
  }

  /** A list of clean names is left as it is. */
  lemma {:induction false} CleanColumnsUnchanged(columns: seq<string>)
    requires forall i :: 0 <= i < |columns| ==> IsClean(columns[i])
    ensures NormalizeColumns(columns) == columns
  {
    forall i | 0 <= i < |columns| ensures NormalizeColumns(columns)[i] == columns[i] {
      NormalizeFixesExactlyClean(columns[i]);
    }
  }

  /** The three columns the pipeline uploads already have clean names, so the
      clean-up keeps them. */
  lemma {:induction false} UploadedColumnsUnchanged(columns: seq<string>)
    requires columns == ["date", "symbol", "close"]
    ensures NormalizeColumns(columns) == columns
  {
    assert IsClean(columns[0]) && IsClean(columns[1]) && IsClean(columns[2]);
    CleanColumnsUnchanged(columns);
  }
}
