/**
  The lost-item report form: its text fields, its photo list, and the two
  handlers that change it (a field edit and a photo upload).
 */
module FormState {
  import opened Seqs

  /** A file chosen in the browser's file picker; only its identity and its
      size in bytes matter to the form. */
  datatype File = File(id: nat, size: nat)

  /** The per-photo upload limit, 5 MB = 5 × 1024 × 1024 bytes. */
  const MaxPhotoBytes: nat := 5 * 1024 * 1024

  /** A photo is accepted when its size is at most the limit (inclusive). */
  predicate FitsLimit(f: File) {
    f.size <= MaxPhotoBytes
  }

  /** The report being filled in. */
  datatype FormData = FormData(description: string, date: string, location: string, photos: seq<File>)

  /** The text inputs wired to the field-change handler, by their `name`. */
  datatype Field = Description | Date | Location

  /** The form as the session starts: empty texts, no photos. */
  const EmptyForm := FormData("", "", "", [])

  /** The current value of one text field. */
  function Get(form: FormData, field: Field): string {
    match field
    case Description => form.description
    case Date => form.date
    case Location => form.location
  }

  /** The field-change handler: the named field takes the new value and every
      other field, photos included, keeps its value. */
  function SetField(form: FormData, field: Field, value: string): (r: FormData)
    ensures Get(r, field) == value
    ensures forall other :: other != field ==> Get(r, other) == Get(form, other)
    ensures r.photos == form.photos
  {
    match field
    case Description => form.(description := value)
    case Date => form.(date := value)
    case Location => form.(location := value)
  }

  /** The photo-upload handler: the files within the size limit are appended,
      in the order they were chosen, after the photos already on the form;
      larger files are dropped without notice. No cap on the number of photos
      is applied. */
  function AddPhotos(form: FormData, files: seq<File>): (r: FormData)
    ensures r.description == form.description && r.date == form.date && r.location == form.location
    ensures |form.photos| <= |r.photos| && r.photos[..|form.photos|] == form.photos
    ensures forall i :: |form.photos| <= i < |r.photos| ==> r.photos[i] in files && FitsLimit(r.photos[i])
    ensures forall i :: 0 <= i < |files| && FitsLimit(files[i]) ==> files[i] in r.photos[|form.photos|..]
    ensures IsSubsequence(r.photos[|form.photos|..], files)
    ensures All(FitsLimit, form.photos) ==> All(FitsLimit, r.photos)
  {
    var accepted := Filter(FitsLimit, files);
    FilterIsSubsequence(FitsLimit, files);
    assert (form.photos + accepted)[|form.photos|..] == accepted;
    form.(photos := form.photos + accepted)
  }

  /** Writing a field's own value back changes nothing. */
  lemma SetFieldOwnValue(form: FormData, field: Field)
    ensures SetField(form, field, Get(form, field)) == form
  {
  }

  /** A later edit of the same field overwrites an earlier one. */
  lemma SetFieldOverwrites(form: FormData, field: Field, v: string, w: string)
    ensures SetField(SetField(form, field, v), field, w) == SetField(form, field, w)
  {
  }

  /** Edits of different fields do not interfere. */
  lemma SetFieldCommutes(form: FormData, f: Field, g: Field, v: string, w: string)
    requires f != g
    ensures SetField(SetField(form, f, v), g, w) == SetField(SetField(form, g, w), f, v)
  {
  }

  /** Each file keeps its multiplicity when within the limit and is absent
      from the added photos otherwise. */
  lemma AddPhotosCount(form: FormData, files: seq<File>, x: File)
    ensures multiset(AddPhotos(form, files).photos)[x] ==
            multiset(form.photos)[x] + (if FitsLimit(x) then multiset(files)[x] else 0)
  {
    FilterMultiplicity(FitsLimit, files, x);
  }

  /** Two uploads in a row add what one upload of both batches adds. */
  lemma AddPhotosTwice(form: FormData, a: seq<File>, b: seq<File>)
    ensures AddPhotos(AddPhotos(form, a), b) == AddPhotos(form, a + b)
  {
    var fa, fb := Filter(FitsLimit, a), Filter(FitsLimit, b);
    FilterAppend(FitsLimit, a, b);
    var once := AddPhotos(form, a);
    assert once.photos == form.photos + fa;
    assert AddPhotos(once, b).photos == (form.photos + fa) + fb;
    assert (form.photos + fa) + fb == form.photos + (fa + fb);
  }

  /** Uploading files that are all within the limit adds every one of them;
      in particular, re-uploading the photos already accepted adds them all
      again (filtering an already filtered list keeps it whole). */
  lemma AddPhotosAllFit(form: FormData, files: seq<File>)
    requires All(FitsLimit, files)
    ensures AddPhotos(form, files).photos == form.photos + files
  {
    FilterOfAllPassing(FitsLimit, files);
  }

  /** The limit is inclusive: a file of exactly 5 MB is kept, one byte more
      is dropped. */
  lemma LimitIsInclusive(form: FormData)
    ensures AddPhotos(form, [File(0, 5242880)]).photos == form.photos + [File(0, 5242880)]
    ensures AddPhotos(form, [File(0, 5242881)]).photos == form.photos
  {
    assert [File(0, 5242880)][1..] == [];
    assert [File(0, 5242881)][1..] == [];
  }

  /** The "at most 3 photos" of the form's label is not enforced: one
      upload of four small files leaves four photos. */
  lemma NoPhotoCap()
    ensures |AddPhotos(EmptyForm, [File(0, 1), File(1, 1), File(2, 1), File(3, 1)]).photos| == 4
  {
    AddPhotosAllFit(EmptyForm, [File(0, 1), File(1, 1), File(2, 1), File(3, 1)]);
  }
}
