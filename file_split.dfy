/**
 * `FileSplitTask`: asks for a file path, an output directory and a chunk
 * size, picks the file class from the path's extension and has that file
 * split itself.
 */
module FileSplit {
  import opened Common
  import opened Text
  import opened Disk
  import opened CsvFiles
  import opened ExcelFiles
  import opened FileClasses

  class FileSplitTask {
    var file: Option<FileRef>
    var outputDir: Option<string>
    var chunkSize: Option<int>

    constructor()
      ensures file.None? && outputDir.None? && chunkSize.None?
    {
      file := None;
      outputDir := None;
      chunkSize := None;
    }

    /**
     * `get_params`, given the three lines typed in answer to its prompts. An
     * unsupported extension is a ValueError before any field is set; a chunk
     * size that is not an integer is a ValueError after the file and the
     * output directory have been set.
     */
    method GetParams(pathLine: string, dirLine: string, sizeLine: string) returns (r: Result<()>)
      modifies this
      ensures FileClass(Extension(pathLine)).None? ==>
                r == Err(ValueError) && file == old(file) && outputDir == old(outputDir) && chunkSize == old(chunkSize)
      ensures FileClass(Extension(pathLine)).Some? ==>
                && file.Some?
                && (file.value.CsvRef? <==> FileClass(Extension(pathLine)).value == CsvKind)
                && (if file.value.CsvRef? then fresh(file.value.csv) && file.value.csv.filePath == pathLine
                    else fresh(file.value.excel) && file.value.excel.filePath == pathLine)
                && outputDir == Some(dirLine)
                && (ParseInt(sizeLine).Some? ==> r == Ok(()) && chunkSize == ParseInt(sizeLine))
                && (ParseInt(sizeLine).None? ==> r == Err(ValueError) && chunkSize == old(chunkSize))
    {
      var kind := FileClass(Extension(pathLine));
      if kind.None? {
        return Err(ValueError);
      }
      match kind.value {
        case CsvKind =>
          var f := new CsvFile(pathLine);
          file := Some(CsvRef(f));
        case ExcelKind =>
          var f := new ExcelFile(pathLine);
          file := Some(ExcelRef(f));
      }
      outputDir := Some(dirLine);
      var size := ParseInt(sizeLine);
      if size.None? {
        return Err(ValueError);
      }
      chunkSize := size;
      r := Ok(());
    }

    /**
     * `execute`: the chosen file's `split(output_dir, chunk_size)` with the
     * two values as `get_params` stored them. Reading `file` before
     * `get_params` set it (or a field it never set) is an AttributeError.
     * The file's contents are given: `columns`/`rows` as `read_csv` reads a
     * CSV file, `sheet` as openpyxl reads a workbook's active sheet.
     */
    method Execute(fs: FileSystem, columns: seq<string>, rows: seq<seq<string>>,
                   sheet: seq<seq<string>>)
      returns (r: Result<()>)
      modifies fs
      ensures file.None? || outputDir.None? || chunkSize.None? ==>
                r == Err(AttributeError) && fs.dirs == old(fs.dirs) && fs.files == old(fs.files)
      ensures file.Some? && outputDir.Some? && chunkSize.Some? ==>
                var dir, size := outputDir.value, chunkSize.value;
                && fs.dirs == (if old(fs.Exists(dir)) then old(fs.dirs) else old(fs.dirs) + {dir})
                && (file.value.CsvRef? ==>
                      if size < 1 then r == Err(ValueError) && fs.files == old(fs.files)
                      else r == Ok(()) && fs.files == ApplyWrites(old(fs.files), CsvWrites(dir, columns, rows, size)))
                && (file.value.ExcelRef? ==>
                      if size == 0 then r == Err(ValueError) && fs.files == old(fs.files)
                      else r == ExcelWrites(dir, sheet, size).outcome &&
                           fs.files == ApplyWrites(old(fs.files), ExcelWrites(dir, sheet, size).writes))
    {
      if file.None? || outputDir.None? || chunkSize.None? {
        return Err(AttributeError);
      }
      match file.value
      case CsvRef(f) =>
        r := f.Split(fs, outputDir.value, chunkSize.value, columns, rows);
      case ExcelRef(f) =>
        r := f.Split(fs, outputDir.value, chunkSize.value, sheet);
    }
  }
}
