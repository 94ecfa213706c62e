/** Client-side checks run when a user picks a model file: the current
    picker (components/control/FileUpload.tsx), the older .glb/.gltf-only
    picker (components/FileUpload.tsx) and the MIME-type override applied
    before an upload (pages/p3/UploadPage.tsx). */
module UploadValidation {
  import opened Base

  /** A browser `File`: name, size in bytes and MIME type ("" when unknown). */
  datatype File = File(name: string, size: nat, mimeType: string)

  const MaxSizeMB: int := 25
  /** 25 MiB in bytes. */
  const MaxBytes: nat := 26214400

  const TooLargeMessage: string := "❌ File too large! Max size: 25MB"
  const InvalidTypeMessage: string := "❌ Invalid file type! Only .glb/.gltf/.stl allowed."
  const LegacyInvalidTypeMessage: string := "❌ Invalid file type! Only .glb or .gltf allowed."

  function DuplicateMessage(name: string): string
  {
    "❌ File with name \"" + name + "\" already exists. Please choose another name."
  }

  /** The source's test `file.size / 1024 / 1024 > MAX_SIZE_MB`. Dividing
      by 1024 twice is exact, so the test is a plain byte bound: exactly
      25 MiB still passes. */
  predicate TooLarge(f: File)
    ensures TooLarge(f) <==> f.size > MaxBytes
  {
    (f.size as real) / 1024.0 / 1024.0 > MaxSizeMB as real
  }

  /** The five suffixes the current picker accepts. */
  const ModelExtensions: seq<string> := [".glb", ".gltf", ".stl", ".obj", ".fbx"]

  /** The source's chain of `endsWith` tests. */
  predicate HasModelExtension(name: string)
  {
    EndsWith(name, ".glb") || EndsWith(name, ".gltf") || EndsWith(name, ".stl")
    || EndsWith(name, ".obj") || EndsWith(name, ".fbx")
  }

  lemma HasModelExtensionIffListed(name: string)
    ensures HasModelExtension(name) <==> exists ext :: ext in ModelExtensions && EndsWith(name, ext)
  {
    if EndsWith(name, ".glb") { assert ".glb" in ModelExtensions; }
    if EndsWith(name, ".gltf") { assert ".gltf" in ModelExtensions; }
    if EndsWith(name, ".stl") { assert ".stl" in ModelExtensions; }
    if EndsWith(name, ".obj") { assert ".obj" in ModelExtensions; }
    if EndsWith(name, ".fbx") { assert ".fbx" in ModelExtensions; }
  }

  /** The .glb/.gltf test of the older picker. */
  predicate IsGltf(name: string)
  {
    EndsWith(name, ".glb") || EndsWith(name, ".gltf")
  }

  /** State of the current picker: the accepted file, the typed author and
      the error line. */
  datatype Picker = Picker(file: Option<File>, author: string, error: Option<string>)

  const InitialPicker: Picker := Picker(None, "", None)

  /** `handleFileChange`: size, then extension, then duplicate name. */
  function OnFileChange(p: Picker, modelsName: seq<string>, selected: Option<File>): (r: Picker)
    ensures r.author == p.author
    ensures selected.None? ==> r == p
    ensures selected.Some? && selected.value.size > MaxBytes ==>
              r.file == None && r.error == Some(TooLargeMessage)
    ensures selected.Some? && selected.value.size <= MaxBytes
            && (forall ext :: ext in ModelExtensions ==> !EndsWith(selected.value.name, ext)) ==>
              r.file == None && r.error == Some(InvalidTypeMessage)
    ensures selected.Some? && selected.value.size <= MaxBytes && HasModelExtension(selected.value.name)
            && selected.value.name in modelsName ==>
              r.file == None && r.error == Some(DuplicateMessage(selected.value.name))
    ensures selected.Some? ==> (r.file.Some? <==>
              selected.value.size <= MaxBytes
              && HasModelExtension(selected.value.name) && selected.value.name !in modelsName)
    ensures selected.Some? && r.file.Some? ==> r.file == selected && r.error == None
  {
    match selected
    case None => p
    case Some(f) =>
      HasModelExtensionIffListed(f.name);
      if TooLarge(f) then p.(file := None, error := Some(TooLargeMessage))
      else if !HasModelExtension(f.name) then p.(file := None, error := Some(InvalidTypeMessage))
      else if f.name in modelsName then p.(file := None, error := Some(DuplicateMessage(f.name)))
      else p.(file := Some(f), error := None)
  }

  /** The author handed to `onFileSelect`: the typed one, or "Anonymous". */
  function AuthorOrAnonymous(author: string): (a: string)
    ensures a != ""
    ensures author != "" ==> a == author
    ensures author == "" ==> a == "Anonymous"
  {
    if author != "" then author else "Anonymous"
  }

  /** The effect on `[file, author]`: the `onFileSelect` call it makes. */
  function SelectionCallback(p: Picker): (c: Option<(File, string)>)
    ensures c.Some? <==> p.file.Some?
    ensures c.Some? ==> c.value.0 == p.file.value && c.value.1 != ""
    ensures c.Some? && p.author != "" ==> c.value.1 == p.author
  {
    match p.file
    case None => None
    case Some(f) => Some((f, AuthorOrAnonymous(p.author)))
  }

  /** Typing in the author field. */
  function OnAuthorChange(p: Picker, author: string): (r: Picker)
    ensures r.author == author && r.file == p.file && r.error == p.error
  {
    p.(author := author)
  }

  /** The remove button: both the file and the error are cleared. */
  function OnRemove(p: Picker): (r: Picker)
    ensures r.file == None && r.error == None && r.author == p.author
  {
    p.(file := None, error := None)
  }

  /** A file accepted by the picker is selected again after removal and a
      fresh pick of the same file. */
  lemma RemoveThenPickRestores(p: Picker, modelsName: seq<string>, f: File)
    requires OnFileChange(p, modelsName, Some(f)).file.Some?
    ensures OnFileChange(OnRemove(p), modelsName, Some(f)) == OnFileChange(p, modelsName, Some(f))
  {
  }

  /** State of the older picker. */
  datatype LegacyPicker = LegacyPicker(file: Option<File>, error: Option<string>)

  const InitialLegacyPicker: LegacyPicker := LegacyPicker(None, None)

  /** `handleFileChange` of the older picker; the second component is the
      argument of the `onFileSelect` call, if one is made. */
  function OnLegacyFileChange(p: LegacyPicker, selected: Option<File>): (r: (LegacyPicker, Option<File>))
    ensures selected.None? ==> r == (p, None)
    ensures selected.Some? && selected.value.size > MaxBytes ==>
              r.0 == LegacyPicker(None, Some(TooLargeMessage)) && r.1 == None
    ensures selected.Some? && selected.value.size <= MaxBytes && !IsGltf(selected.value.name) ==>
              r.0 == LegacyPicker(None, Some(LegacyInvalidTypeMessage)) && r.1 == None
    ensures r.1.Some? <==> selected.Some? && selected.value.size <= MaxBytes && IsGltf(selected.value.name)
    ensures r.1.Some? ==> r.1 == selected && r.0 == LegacyPicker(selected, None)
  {
    match selected
    case None => (p, None)
    case Some(f) =>
      if TooLarge(f) then (LegacyPicker(None, Some(TooLargeMessage)), None)
      else if !IsGltf(f.name) then (LegacyPicker(None, Some(LegacyInvalidTypeMessage)), None)
      else (LegacyPicker(Some(f), None), Some(f))
  }

  /** Whatever the older picker accepts, the current picker accepts too,
      unless the name is already taken. */
  lemma LegacyAcceptanceImpliesCurrent(p: Picker, q: LegacyPicker, modelsName: seq<string>, f: File)
    requires OnLegacyFileChange(q, Some(f)).1.Some?
    requires f.name !in modelsName
    ensures OnFileChange(p, modelsName, Some(f)).file == Some(f)
  {
  }

  const GltfBinary: string := "model/gltf-binary"

  /** The MIME type a file is uploaded with. */
  function UploadMimeType(f: File): (t: string)
    ensures t != ""
    ensures EndsWith(f.name, ".glb") ==> t == GltfBinary
    ensures f.mimeType == "" ==> t == GltfBinary
    ensures f.mimeType != "" && !EndsWith(f.name, ".glb") ==> t == f.mimeType
  {
    if f.mimeType == "" || EndsWith(f.name, ".glb") then GltfBinary else f.mimeType
  }

  /** The copy `new File([file], file.name, { type })` sent to the upload. */
  function WithUploadType(f: File): (g: File)
    ensures g.name == f.name && g.size == f.size && g.mimeType == UploadMimeType(f)
  {
    f.(mimeType := UploadMimeType(f))
  }

  /** Re-applying the override to an already overridden file changes nothing. */
  lemma UploadTypeIdempotent(f: File)
    ensures WithUploadType(WithUploadType(f)) == WithUploadType(f)
  {
  }
}
