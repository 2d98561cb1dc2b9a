/** The exceptions that end a run of the DAC value writer (none of them is caught). */
module ScriptErrors {
  datatype Error =
    | ManifestLineWithoutSpace(line: string)  // `line.split(' ')[1]` raises IndexError
    | MissingNominalFile(path: string)        // `open(path)` raises IOError
    | BadSlot(line: string)                   // `int(line.split('\t')[0])` raises ValueError
    | MissingValueField(line: string)         // `line.split('\t')[1]` raises IndexError
    | BadValue(line: string)                  // `int(line.split('\t')[1])` raises ValueError
}
