/** The bulk-upload dialog: the sample CSV it offers for download and the
    state it keeps (the chosen file, the upload flag and the error text). */
module BulkUploadModal {
  import opened Js
  import opened Text
  import opened Types

  // ---------------------------------------------------------------------
  // The sample CSV

  /** Input types that get no column in the sample sheet. */
  const NoSampleColumn: seq<string> := ["richtext", "image", "checkbox"]

  /** The names of the fields that get a column, in field order. */
  function SampleColumns(fields: seq<FormField>): (r: seq<string>)
    ensures |r| <= |fields|
    ensures forall n :: n in r <==> exists f :: f in fields && f.kind !in NoSampleColumn && f.name == n
  {
    if fields == [] then []
    else
      var rest := SampleColumns(fields[1..]);
      assert forall f :: f in fields <==> f == fields[0] || f in fields[1..];
      if fields[0].kind in NoSampleColumn then rest else [fields[0].name] + rest
  }

  /** Column lists of concatenated field lists concatenate. */
  lemma {:induction false} SampleColumnsConcat(a: seq<FormField>, b: seq<FormField>)
    ensures SampleColumns(a + b) == SampleColumns(a) + SampleColumns(b)
  {
    if a != [] {
      assert (a + b)[1..] == a[1..] + b;
      assert (a + b)[0] == a[0];
      SampleColumnsConcat(a[1..], b);
      var head := if a[0].kind in NoSampleColumn then [] else [a[0].name];
      assert SampleColumns(a + b) == head + (SampleColumns(a[1..]) + SampleColumns(b));
      assert head + (SampleColumns(a[1..]) + SampleColumns(b)) == (head + SampleColumns(a[1..])) + SampleColumns(b);
    } else {
      assert a + b == b;
    }
  }

  /** The header line of the sample file. */
  function SampleCsv(fields: seq<FormField>): string {
    Join(SampleColumns(fields), ",")
  }

  /** Splitting the sample line at its commas gives back the column names,
      when there is at least one and none holds a comma. */
  lemma SampleCsvSplits(fields: seq<FormField>)
    requires |SampleColumns(fields)| >= 1
    requires forall f :: f in fields ==> ',' !in f.name
    ensures Split(SampleCsv(fields), ',') == SampleColumns(fields)
  {
    var cols := SampleColumns(fields);
    assert forall i :: 0 <= i < |cols| ==> cols[i] in cols;
    SplitJoin(cols, ',');
  }

  /** The download name: "sample_", the title in lower case, ".csv". */
  function SampleFileName(title: string): (r: string)
    ensures StartsWith(r, "sample_") && EndsWith(r, ".csv")
    ensures |r| == |title| + 11
    ensures forall i :: 0 <= i < |title| ==> r[7 + i] == LowerChar(title[i])
  {
    var r := "sample_" + Lower(title) + ".csv";
    assert r[..7] == "sample_";
    assert r[|r| - 4..] == ".csv";
    r
  }

  /** Titles that differ only in upper and lower case share a file name. */
  lemma SampleFileNameIgnoresCase(title: string)
    ensures SampleFileName(Lower(title)) == SampleFileName(title)
  {
    LowerIdempotent(title);
  }

  // ---------------------------------------------------------------------
  // The dialog state

  /** A chosen file, as far as the dialog looks at it. */
  datatype UploadFile = UploadFile(name: string, mimeType: string)

  /** How the `onSubmit` promise settles. */
  datatype UploadOutcome = Uploaded | UploadRejected

  /** One call of `onSubmit`, with the dialog state at the moment of the call. */
  datatype UploadCall = UploadCall(file: UploadFile, uploading: bool, errorShown: Option<string>)

  const NoFileMessage := "Please select a file to upload."
  const InvalidTypeMessage := "Invalid file type. Please upload a .csv file."
  const UploadFailedMessage := "An error occurred during upload. Please try again."
  const CsvType := "text/csv"

  class UploadDialog {
    var file: Option<UploadFile>
    var isUploading: bool
    var error: Option<string>
    /** The files handed to `onSubmit`, in order. */
    var uploads: seq<UploadCall>
    /** How often `onClose` was called. */
    var closes: nat

    /** Only CSV files are uploaded, each while the dialog shows the upload
        flag and no error; the error shown is one of the dialog's messages. */
    predicate Valid()
      reads this
    {
      && (forall i :: 0 <= i < |uploads| ==>
            uploads[i].file.mimeType == CsvType && uploads[i].uploading && uploads[i].errorShown == None)
      && (error == None || error.value in {NoFileMessage, InvalidTypeMessage, UploadFailedMessage})
    }

    constructor()
      ensures Valid()
      ensures file == None && !isUploading && error == None && uploads == [] && closes == 0
    {
      file := None;
      isUploading := false;
      error := None;
      uploads := [];
      closes := 0;
    }

    /** `handleFileChange`: the first chosen file is kept and the error
        cleared; an empty selection changes nothing. */
    method HandleFileChange(selection: seq<UploadFile>)
      requires Valid()
      modifies this
      ensures Valid()
      ensures |selection| > 0 ==> file == Some(selection[0]) && error == None
      ensures |selection| == 0 ==> file == old(file) && error == old(error)
      ensures isUploading == old(isUploading) && uploads == old(uploads) && closes == old(closes)
    {
      if |selection| > 0 {
        file := Some(selection[0]);
        error := None;
      }
    }

    /** `handleSubmit`, with the settling of `onSubmit` as a parameter:
        without a file, or with a file that is not a CSV, it only shows an
        error; otherwise it uploads the file and shows an error only when
        the upload fails. The upload flag is down again afterwards. */
    method HandleSubmit(outcome: UploadOutcome)
      requires Valid()
      modifies this
      ensures Valid()
      ensures file == old(file) && closes == old(closes)
      ensures old(file) == None ==>
        error == Some(NoFileMessage) && uploads == old(uploads) && isUploading == old(isUploading)
      ensures old(file).Some? && old(file).value.mimeType != CsvType ==>
        error == Some(InvalidTypeMessage) && uploads == old(uploads) && isUploading == old(isUploading)
      ensures old(file).Some? && old(file).value.mimeType == CsvType ==>
        uploads == old(uploads) + [UploadCall(old(file).value, true, None)] && !isUploading
      ensures old(file).Some? && old(file).value.mimeType == CsvType ==>
        error == if outcome == UploadRejected then Some(UploadFailedMessage) else None
    {
      if file == None {
        error := Some(NoFileMessage);
        return;
      }
      if file.value.mimeType != CsvType {
        error := Some(InvalidTypeMessage);
        return;
      }
      isUploading := true;
      error := None;
      uploads := uploads + [UploadCall(file.value, isUploading, error)];
      if outcome == UploadRejected {
        error := Some(UploadFailedMessage);
      }
      isUploading := false;
    }

    /** `handleClose`: forgets the file, the error and the upload flag, then
        tells the parent. */
    method HandleClose()
      requires Valid()
      modifies this
      ensures Valid()
      ensures file == None && error == None && !isUploading
      ensures uploads == old(uploads) && closes == old(closes) + 1
    {
      file := None;
      error := None;
      isUploading := false;
      closes := closes + 1;
    }
  }
}
