/** `FileUtils`: the app's media directory layout under the private files
    directory, generated file names, saving a picked image, and null-tolerant
    delete and exists checks. The files directory and clock readings are
    parameters. */
module FileUtils {
  import opened Wrappers
  import opened Text
  import opened Paths
  import opened Zip
  import opened Files

  function AppDir(filesDir: Path): Path {
    Join(filesDir, "memories")
  }

  /** `filesDir/memories/images`. */
  function ImagesDir(filesDir: Path): Path {
    Join(AppDir(filesDir), "images")
  }

  /** `filesDir/memories/audio`. */
  function AudioDir(filesDir: Path): Path {
    Join(AppDir(filesDir), "audio")
  }

  /** The images and audio directories sit side by side in the app
      directory, so a file placed in one is never a file of the other. */
  lemma MediaDirsApart(filesDir: Path, a: string, b: string)
    requires a != "" && '/' !in a && b != "" && '/' !in b
    ensures ImagesDir(filesDir) != AudioDir(filesDir)
    ensures Join(ImagesDir(filesDir), a) != Join(AudioDir(filesDir), b)
    ensures Parent(ImagesDir(filesDir)) == Some(AppDir(filesDir)) == Parent(AudioDir(filesDir))
  {
    JoinSplits(AppDir(filesDir), "images");
    JoinSplits(AppDir(filesDir), "audio");
    JoinSplits(ImagesDir(filesDir), a);
    JoinSplits(AudioDir(filesDir), b);
  }

  /** Any file placed under the images directory differs from any file under
      the audio directory: the two paths part at the first letter after the
      app directory. */
  lemma MediaFilesApart(filesDir: Path, a: string, b: string)
    ensures Join(ImagesDir(filesDir), a) != Join(AudioDir(filesDir), b)
  {
    var k := |AppDir(filesDir)| + 1;
    var x, y := Join(ImagesDir(filesDir), a), Join(AudioDir(filesDir), b);
    assert x[..|ImagesDir(filesDir)|] == ImagesDir(filesDir);
    assert y[..|AudioDir(filesDir)|] == AudioDir(filesDir);
    assert x[k] == 'i' && y[k] == 'a';
  }

  /** `getAppDirectory`. */
  method GetAppDirectory(fs: FileSystem, filesDir: Path) returns (dir: Path)
    modifies fs
    ensures dir == AppDir(filesDir)
    ensures fs.nodes == MakeDirs(old(fs.nodes), dir)
  {
    dir := Join(filesDir, "memories");
    if !fs.Exists(dir) {
      var _ := fs.Mkdirs(dir);
    }
  }

  /** A media directory getter: the app directory, then the named directory
      inside it, each created when missing. */
  method GetMediaDirectory(fs: FileSystem, filesDir: Path, name: string) returns (dir: Path)
    modifies fs
    ensures dir == Join(AppDir(filesDir), name)
    ensures fs.nodes == MakeDirs(MakeDirs(old(fs.nodes), AppDir(filesDir)), dir)
    ensures dir in fs.nodes || Blocked(fs.nodes, dir)
  {
    var app := GetAppDirectory(fs, filesDir);
    dir := Join(app, name);
    if !fs.Exists(dir) {
      var _ := fs.Mkdirs(dir);
    }
  }

  /** `getImagesDirectory`. */
  method GetImagesDirectory(fs: FileSystem, filesDir: Path) returns (dir: Path)
    modifies fs
    ensures dir == ImagesDir(filesDir)
    ensures fs.nodes == MakeDirs(MakeDirs(old(fs.nodes), AppDir(filesDir)), dir)
    ensures dir in fs.nodes || Blocked(fs.nodes, dir)
  {
    dir := GetMediaDirectory(fs, filesDir, "images");
  }

  /** `getAudioDirectory`. */
  method GetAudioDirectory(fs: FileSystem, filesDir: Path) returns (dir: Path)
    modifies fs
    ensures dir == AudioDir(filesDir)
    ensures fs.nodes == MakeDirs(MakeDirs(old(fs.nodes), AppDir(filesDir)), dir)
    ensures dir in fs.nodes || Blocked(fs.nodes, dir)
  {
    dir := GetMediaDirectory(fs, filesDir, "audio");
  }

  /** The state a media directory getter leaves behind. */
  function AfterGetter(nodes: map<Path, Node>, filesDir: Path, dir: Path): map<Path, Node> {
    MakeDirs(MakeDirs(nodes, AppDir(filesDir)), dir)
  }

  /** The directory getters are idempotent: a second call, after any steps
      that only added nodes, changes nothing. */
  lemma GettersIdempotent(nodes: map<Path, Node>, later: map<Path, Node>, filesDir: Path, dir: Path)
    requires Extends(later, AfterGetter(nodes, filesDir, dir))
    ensures AfterGetter(later, filesDir, dir) == later
  {
    var first := MakeDirs(nodes, AppDir(filesDir));
    MakeDirsSettles(nodes, later, AppDir(filesDir));
    MakeDirsSettles(first, later, dir);
  }

  /** `"img_<millis>.jpg"`. */
  function ImageFileName(now: nat): (name: string)
    ensures '/' !in name && name != ""
    ensures StartsWith(name, "img_")
  {
    "img_" + Decimal(now) + ".jpg"
  }

  /** `generateAudioFileName`: `"audio_<millis>.3gp"`. */
  function AudioFileName(now: nat): (name: string)
    ensures '/' !in name && name != ""
    ensures StartsWith(name, "audio_")
  {
    "audio_" + Decimal(now) + ".3gp"
  }

  /** Generated names differ for different clock readings, and an image name
      is never an audio name. */
  lemma GeneratedNamesDistinct(a: nat, b: nat)
    ensures ImageFileName(a) == ImageFileName(b) <==> a == b
    ensures AudioFileName(a) == AudioFileName(b) <==> a == b
    ensures ImageFileName(a) != AudioFileName(b)
  {
    if ImageFileName(a) == ImageFileName(b) {
      DecimalNameInjective("img_", ".jpg", a, b);
    }
    if AudioFileName(a) == AudioFileName(b) {
      DecimalNameInjective("audio_", ".3gp", a, b);
    }
    assert ImageFileName(a)[0] == 'i' && AudioFileName(b)[0] == 'a';
  }

  /** What the content resolver and `BitmapFactory` make of a picked
      image: it cannot be opened (`IOException`), it does not decode to a
      bitmap, or it decodes and compresses to the given JPEG bytes. */
  datatype ImageSource = Unopenable | Undecodable | Decoded(jpeg: Bytes)

  /** An exception `saveImageFromUri` lets escape. */
  datatype Uncaught = NullBitmap

  /** The path `saveImageFromUri` writes to at clock reading `now`. */
  function ImagePath(filesDir: Path, now: nat): Path {
    Join(ImagesDir(filesDir), ImageFileName(now))
  }

  /** `saveImageFromUri`: the absolute path of the saved JPEG under the
      images directory; `null` when opening the source or the target throws
      an `IOException`. A source that does not decode leaves an empty file
      behind and throws on `bitmap.compress` of a null bitmap, which is not caught. */
  method SaveImageFromUri(fs: FileSystem, filesDir: Path, source: ImageSource, now: nat)
    returns (r: Result<Option<Path>, Uncaught>)
    modifies fs
    ensures source.Unopenable? ==> r == Ok(None) && fs.nodes == old(fs.nodes)
    ensures !source.Unopenable? ==>
      var dirs := AfterGetter(old(fs.nodes), filesDir, ImagesDir(filesDir));
      var file := ImagePath(filesDir, now);
      if !CanCreate(dirs, file) then r == Ok(None) && fs.nodes == dirs
      else if source.Undecodable? then r == Thrown(NullBitmap) && fs.nodes == dirs[file := Blob([])]
      else r == Ok(Some(file)) && fs.nodes == dirs[file := Blob(source.jpeg)]
  {
    if source.Unopenable? {
      return Ok(None);
    }
    var fileName := "img_" + Decimal(now) + ".jpg";
    var dir := GetImagesDirectory(fs, filesDir);
    var file := Join(dir, fileName);
    var ok := fs.Create(file);
    if !ok {
      return Ok(None);
    }
    match source {
      case Undecodable =>
        r := Thrown(NullBitmap);
      case Decoded(jpeg) =>
        fs.Append(file, jpeg);
        assert [] + jpeg == jpeg;
        r := Ok(Some(file));
    }
  }

  /** A saved image lands in the images directory under its generated name. */
  lemma SavedImagePath(filesDir: Path, now: nat)
    ensures Parent(ImagePath(filesDir, now)) == Some(ImagesDir(filesDir))
    ensures BaseName(ImagePath(filesDir, now)) == ImageFileName(now)
  {
    JoinSplits(ImagesDir(filesDir), ImageFileName(now));
  }

  /** `deleteFile`: nothing for a null path or a missing file, otherwise
      `File.delete()`, whose failure is ignored. */
  method DeleteFile(fs: FileSystem, path: Option<Path>)
    modifies fs
    ensures path.None? ==> fs.nodes == old(fs.nodes)
    ensures path.Some? ==> fs.nodes == Deleted(old(fs.nodes), path.value)
  {
    if path.Some? {
      var p := path.value;
      if fs.Exists(p) {
        var _ := fs.Delete(p);
      }
    }
  }

  /** `fileExists`: false for a null path, otherwise whether the path
      exists. */
  function FileExists(fs: FileSystem, path: Option<Path>): (r: bool)
    reads fs
    ensures r ==> path.Some?
    ensures path.Some? ==> (r <==> fs.Exists(path.value))
  {
    match path
    case None => false
    case Some(p) => fs.Exists(p)
  }
}
