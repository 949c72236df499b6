/**
 * routes/admin.py: the upload-extension check, the admin test on the
 * session email, and the effect of adding, editing and deleting a catalogue
 * item. Saving and deleting image files is outside the model; an upload is
 * its client file name, and the stored name is the random hex token, '_'
 * and the sanitised name, which arrive as parameters.
 */
module Admin {
  import opened Wrappers
  import opened Text
  import opened Tables
  import Login

  const AllowedExtensions: set<string> := {"png", "jpg", "jpeg", "gif"}

  /** `allowed_file`: lower-case the text after the last '.' and look it up. */
  function AllowedFile(filename: string): (ok: bool)
    ensures ok ==> '.' in filename
  {
    match LastIndexOf(filename, '.')
    case None => false
    case Some(i) => AsciiLower(filename[i + 1..]) in AllowedExtensions
  }

  predicate NoDot(s: string) { forall k :: 0 <= k < |s| ==> s[k] != '.' }

  /**
   * The rule stated without `rsplit`: some '.' is followed by a dot-free,
   * allowed extension (in any letter case).
   */
  ghost predicate HasAllowedExtension(filename: string) {
    exists i :: 0 <= i < |filename| && filename[i] == '.' && NoDot(filename[i + 1..])
      && AsciiLower(filename[i + 1..]) in AllowedExtensions
  }

  /** A '.' with no '.' after it is the one `rsplit('.', 1)` splits at. */
  lemma LastDot(s: string, j: nat)
    requires j < |s| && s[j] == '.' && NoDot(s[j + 1..])
    ensures LastIndexOf(s, '.') == Some(j)
  {
    assert forall k :: j < k < |s| ==> s[k] == s[j + 1..][k - j - 1];
  }

  /** The text after the last '.' holds no '.'. */
  lemma AfterLastDot(s: string, i: nat)
    requires LastIndexOf(s, '.') == Some(i)
    ensures NoDot(s[i + 1..])
  {
    var ext := s[i + 1..];
    forall k | 0 <= k < |ext|
      ensures ext[k] != '.'
    {
      assert ext[k] == s[i + 1 + k];
    }
  }

  lemma AllowedFileHasExtension(filename: string)
    requires AllowedFile(filename)
    ensures HasAllowedExtension(filename)
  {
    var i := LastIndexOf(filename, '.').value;
    var ext := filename[i + 1..];
    AfterLastDot(filename, i);
    assert filename[i] == '.' && NoDot(ext) && AsciiLower(ext) in AllowedExtensions;
  }

  lemma ExtensionMakesFileAllowed(filename: string)
    requires HasAllowedExtension(filename)
    ensures AllowedFile(filename)
  {
    var j :| 0 <= j < |filename| && filename[j] == '.' && NoDot(filename[j + 1..])
      && AsciiLower(filename[j + 1..]) in AllowedExtensions;
    LastDot(filename, j);
  }

  lemma AllowedFileMeansExtension(filename: string)
    ensures AllowedFile(filename) <==> HasAllowedExtension(filename)
  {
    if AllowedFile(filename) {
      AllowedFileHasExtension(filename);
    }
    if HasAllowedExtension(filename) {
      ExtensionMakesFileAllowed(filename);
    }
  }

  lemma AllowedFileIgnoresCase()
    ensures AllowedFile("X.PNG")
  {
    LastDot("X.PNG", 1);
    assert "X.PNG"[2..] == "PNG";
    assert AsciiLower("PNG") == "png";
  }

  /** Only the last extension counts: a disguised executable is refused. */
  lemma AllowedFileRefusesDisguisedExe()
    ensures !AllowedFile("a.png.exe")
  {
    assert "a.png.exe"[6..] == "exe";
    LastDot("a.png.exe", 5);
    assert AsciiLower("exe") == "exe";
  }

  lemma AllowedFileAcceptsLastPng()
    ensures AllowedFile("a.exe.png")
  {
    assert "a.exe.png"[6..] == "png";
    LastDot("a.exe.png", 5);
    assert AsciiLower("png") == "png";
  }

  lemma AllowedFileNeedsDot()
    ensures !AllowedFile("png")
    ensures !AllowedFile("")
  {
  }

  /** `is_admin`: the admin panel's check, on the session email alone. */
  function IsAdmin(s: Login.Session): (b: bool)
    ensures b <==> s.userEmail == Some("Eduard@gmail.com")
  {
    s.userEmail == Some("Eduard@gmail.com")
  }

  /** The four text fields of the add and edit forms; `None` when absent. */
  datatype ItemForm = ItemForm(
    implemento: Option<string>, descripcion: Option<string>,
    disponibilidad: Option<string>, categoria: Option<string>)

  predicate FieldsFilled(f: ItemForm) {
    Truthy(f.implemento) && Truthy(f.descripcion) && Truthy(f.disponibilidad) && Truthy(f.categoria)
  }

  /**
   * The `imagen_url` an upload produces: a stored name exactly when a file
   * with a non-empty, allowed name was sent. The stored name is never empty.
   */
  function UploadedImage(upload: Option<string>, token: string, safeName: string): (r: Option<string>)
    ensures r.Some? <==> upload.Some? && upload.value != "" && AllowedFile(upload.value)
    ensures r.Some? ==> Truthy(r)
  {
    if upload.Some? && upload.value != "" && AllowedFile(upload.value)
    then Some(token + "_" + safeName)
    else None
  }

  datatype WriteOutcome = Written | MissingFields | NotNumeric | NoSuchItem

  /**
   * `agregar_implemento` on POST: with every field filled, inserts the item
   * under the next id with the uploaded image, if any; otherwise nothing is
   * written.
   */
  method AddItem(db: Database, f: ItemForm, upload: Option<string>, token: string, safeName: string)
    returns (o: WriteOutcome)
    requires db.Valid()
    modifies db
    ensures db.Valid()
    ensures o == MissingFields <==> !FieldsFilled(f)
    ensures o == Written <==> FieldsFilled(f) && IntegerText(f.disponibilidad.value).Some?
    ensures o != Written ==> db.State() == old(db.State())
    ensures o == Written ==>
      && old(db.lastCatalogo) + 1 !in old(db.catalogo)
      && db.State() == old(db.State()).(
           catalogo := old(db.catalogo)[old(db.lastCatalogo) + 1 :=
             Item(f.implemento.value, f.descripcion.value, IntegerText(f.disponibilidad.value).value,
                  f.categoria.value, UploadedImage(upload, token, safeName), None)],
           lastCatalogo := old(db.lastCatalogo) + 1)
  {
    if !FieldsFilled(f) {
      return MissingFields;
    }
    var n := IntegerText(f.disponibilidad.value);
    if n.None? {
      return NotNumeric;
    }
    var id := db.lastCatalogo + 1;
    db.catalogo := db.catalogo[id := Item(f.implemento.value, f.descripcion.value, n.value,
                                          f.categoria.value, UploadedImage(upload, token, safeName), None)];
    db.lastCatalogo := id;
    o := Written;
  }

  /**
   * `editar_implemento` on POST: with every field filled, overwrites the four
   * fields of item `id`, and its image only when a new allowed image was
   * uploaded. An `UPDATE` of a missing id matches no row.
   */
  method EditItem(
    db: Database, id: int, f: ItemForm, upload: Option<string>, token: string, safeName: string)
    returns (o: WriteOutcome)
    requires db.Valid()
    modifies db
    ensures db.Valid()
    ensures o == MissingFields <==> !FieldsFilled(f)
    ensures o == Written <==>
      FieldsFilled(f) && IntegerText(f.disponibilidad.value).Some? && id in old(db.catalogo)
    ensures o != Written ==> db.State() == old(db.State())
    ensures o == Written ==>
      var before := old(db.catalogo)[id];
      var image := UploadedImage(upload, token, safeName);
      db.State() == old(db.State()).(
        catalogo := old(db.catalogo)[id :=
          Item(f.implemento.value, f.descripcion.value, IntegerText(f.disponibilidad.value).value,
               f.categoria.value, if image.Some? then image else before.imagenUrl, before.estado)])
  {
    if !FieldsFilled(f) {
      return MissingFields;
    }
    var n := IntegerText(f.disponibilidad.value);
    if n.None? {
      return NotNumeric;
    }
    if id !in db.catalogo {
      return NoSuchItem;
    }
    var before := db.catalogo[id];
    var image := UploadedImage(upload, token, safeName);
    var url := if image.Some? then image else before.imagenUrl;
    db.catalogo := db.catalogo[id := Item(f.implemento.value, f.descripcion.value, n.value,
                                          f.categoria.value, url, before.estado)];
    o := Written;
  }

  /** `eliminar_implemento`: the row goes whether or not its image file could be removed. */
  method DeleteItem(db: Database, id: int)
    requires db.Valid()
    modifies db
    ensures db.Valid()
    ensures id !in db.catalogo
    ensures db.State() == old(db.State()).(catalogo := old(db.catalogo) - {id})
  {
    db.catalogo := db.catalogo - {id};
  }
}
