/**
 * The file types both file tasks accept: `FILE_CLASSES` maps the extension
 * "csv" to `CsvFile` and "xlsx" to `ExcelFile`, the extension being the
 * lower-cased text after the last dot of the path.
 */
module FileClasses {
  import opened Common
  import opened Text
  import opened CsvFiles
  import opened ExcelFiles

  /** `path.split('.')[-1].lower()`. */
  function Extension(path: string): (e: string)
    ensures '.' !in e
  {
    Lower(LastSegment(path, '.'))
  }

  /** The extension is whatever follows the last dot, lower-cased. */
  lemma ExtensionAfterLastDot(stem: string, e: string)
    requires '.' !in e
    ensures Extension(stem + "." + e) == Lower(e)
  {
    var p := stem + "." + e;
    var k := LastIndexOf(p, '.');
    assert p[|stem|] == '.';
    forall j | |stem| < j < |p| ensures p[j] != '.' {
      assert p[j] == e[j - |stem| - 1];
    }
    assert k == |stem|;
    assert p[k + 1..] == e;
  }

  /** `FILE_CLASSES`: which class an extension selects, if any. */
  predicate Supported(extension: string)
  {
    extension == "csv" || extension == "xlsx"
  }

  /** The two classes of `FILE_CLASSES`. */
  datatype FileKind = CsvKind | ExcelKind

  /** `FILE_CLASSES.get(extension)`: the class an extension selects, None when it is not a key. */
  function FileClass(extension: string): (k: Option<FileKind>)
    ensures k.Some? <==> Supported(extension)
    ensures k == Some(CsvKind) <==> extension == "csv"
    ensures k == Some(ExcelKind) <==> extension == "xlsx"
  {
    if extension == "csv" then Some(CsvKind)
    else if extension == "xlsx" then Some(ExcelKind)
    else None
  }

  /** A file object of one of the two supported classes. */
  datatype FileRef = CsvRef(csv: CsvFile) | ExcelRef(excel: ExcelFile)
}
