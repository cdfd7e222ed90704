/**
 The export side of the text interchange (App.tsx, `handleExport`): which
 week is exported and the name of the downloaded file. Rendering the text
 itself is done by a helper that is not part of this model.
 */
module Transfer {
  import opened Types

  /** `filterWeek || workingWeek`: the week selector wins when set; `None` is
      the case where the export is refused. */
  function ExportWeek(filterWeek: string, workingWeek: string): (r: Option<string>)
    ensures r.None? <==> filterWeek == "" && workingWeek == ""
    ensures r.Some? ==> r.value != "" && (r.value == filterWeek || (filterWeek == "" && r.value == workingWeek))
  {
    if filterWeek != "" then Some(filterWeek)
    else if workingWeek != "" then Some(workingWeek)
    else None
  }

  /** A character matched by the class `[\s/]` of a JavaScript regular
      expression: the ECMAScript white space and line terminators, or '/'. */
  predicate IsSeparator(c: char)
    ensures c == ' ' || c == '/' || c == '\t' || c == '\n' ==> IsSeparator(c)
    ensures c == '_' || c == '-' || 'a' <= c <= 'z' || 'A' <= c <= 'Z' || '0' <= c <= '9' ==> !IsSeparator(c)
  {
    var n := c as int;
    || 0x09 <= n <= 0x0D || n == 0x20 || n == 0xA0 || n == 0x1680
    || 0x2000 <= n <= 0x200A || n == 0x2028 || n == 0x2029 || n == 0x202F
    || n == 0x205F || n == 0x3000 || n == 0xFEFF
    || c == '/'
  }

  /** `week.replace(/[\s/]/g, '_')`. */
  function Normalize(week: string): (r: string)
    ensures |r| == |week|
    ensures forall i :: 0 <= i < |week| ==> r[i] == if IsSeparator(week[i]) then '_' else week[i]
  {
    if week == [] then [] else [if IsSeparator(week[0]) then '_' else week[0]] + Normalize(week[1..])
  }

  /** No separator survives normalisation, and normalising twice is normalising once. */
  lemma NormalizeClean(week: string)
    ensures forall i :: 0 <= i < |week| ==> !IsSeparator(Normalize(week)[i])
    ensures Normalize(Normalize(week)) == Normalize(week)
  {
    assert !IsSeparator('_');
  }

  const FilePrefix := "Tareas_GenoTasks_"
  const FileSuffix := ".txt"

  /** The name of the exported file for `week`. */
  function ExportFileName(week: string): (name: string)
    ensures |name| == |FilePrefix| + |week| + |FileSuffix|
    ensures name[..|FilePrefix|] == FilePrefix && name[|name| - |FileSuffix|..] == FileSuffix
  {
    FilePrefix + Normalize(week) + FileSuffix
  }

  /** The file name is the fixed prefix, the week with each separator replaced
      by '_' and every other character kept in place, and the suffix; it
      holds no separator. */
  lemma FileNameShape(week: string)
    ensures var name := ExportFileName(week);
      && |name| == |FilePrefix| + |week| + |FileSuffix|
      && name[..|FilePrefix|] == FilePrefix
      && name[|name| - |FileSuffix|..] == FileSuffix
      && (forall i :: 0 <= i < |week| && !IsSeparator(week[i]) ==> name[|FilePrefix| + i] == week[i])
      && (forall i :: 0 <= i < |week| && IsSeparator(week[i]) ==> name[|FilePrefix| + i] == '_')
      && (forall i :: 0 <= i < |name| ==> !IsSeparator(name[i]))
  {
    var name := ExportFileName(week);
    NormalizeClean(week);
    forall i | 0 <= i < |name| ensures !IsSeparator(name[i]) {
      if i < |FilePrefix| {
        assert name[i] == FilePrefix[i];
      } else if i < |FilePrefix| + |week| {
        assert name[i] == Normalize(week)[i - |FilePrefix|];
      } else {
        assert name[i] == FileSuffix[i - |FilePrefix| - |week|];
      }
    }
  }

  /** What `handleExport` hands to the download: a file name and its text. */
  datatype Download = Download(fileName: string, text: string)
}
