/**
 * File-name vocabulary of the FBX parser: the supported extensions, the
 * texture-file test and the file-name validity test used by the binary scan.
 */
module FbxFormat {
  import opened GoStrings
  import opened GoPath

  /** One byte of a file. */
  newtype byte = b: int | 0 <= b < 256

  /** Go's string(content): each byte becomes one character of the same value. */
  function AsString(bytes: seq<byte>): (r: string)
    ensures |r| == |bytes|
  {
    seq(|bytes|, i requires 0 <= i < |bytes| => bytes[i] as int as char)
  }

  /** The keys of GetSupportedModelExtensions. */
  const ModelExtensions: set<string> :=
    {".fbx", ".glb", ".gltf", ".obj", ".dae", ".3ds", ".ply", ".stl"}

  /** The keys of GetSupportedTextureExtensions and of isTextureFile's table. */
  const TextureExtensions: set<string> :=
    {".jpg", ".jpeg", ".png", ".bmp", ".tga", ".dds", ".exr", ".hdr", ".tif", ".tiff", ".webp"}

  /** The extensions the binary scan searches for, in search order (no ".webp"). */
  const BinaryScanExtensions: seq<string> :=
    [".jpg", ".jpeg", ".png", ".bmp", ".tga", ".dds", ".exr", ".hdr", ".tif", ".tiff"]

  /** A (source name, uploaded URL) pair reported for each texture. */
  datatype TextureMapping = TextureMapping(source: string, target: string)

  /** Why a texture scan reports an error. */
  datatype ParseError = OpenFailed | HeaderReadFailed | ScanFailed | BinaryReadFailed

  /** isTextureFile: the lower-cased extension is a texture extension, so the name has one. */
  predicate IsTextureFile(name: string)
    ensures IsTextureFile(name) ==> Ext(name) != ""
  {
    Lower(Ext(name)) in TextureExtensions
  }

  /** isValidFileName: a texture file name that holds a '.' and only printable ASCII. */
  predicate IsValidFileName(name: string)
    ensures IsValidFileName(name) ==> '.' in name && IsTextureFile(name)
  {
    ContainsChar(name, '.');
    && 5 <= |name| <= 255
    && Contains(name, ".")
    && (forall i :: 0 <= i < |name| ==> 32 <= name[i] as int <= 126)
    && IsTextureFile(name)
  }

  /** isValidFileName as the source runs it: length, '.', a character loop, then the texture test. */
  method CheckFileName(name: string) returns (ok: bool)
    ensures ok == IsValidFileName(name)
  {
    if |name| < 5 || |name| > 255 {
      return false;
    }
    if !Contains(name, ".") {
      return false;
    }
    var i := 0;
    while i < |name|
      invariant i <= |name|
      invariant forall k :: 0 <= k < i ==> 32 <= name[k] as int <= 126
    {
      if name[i] as int < 32 || name[i] as int > 126 {
        return false;
      }
      i := i + 1;
    }
    ok := IsTextureFile(name);
  }

  /** No extension is both a model format and a texture format. */
  lemma ModelAndTextureExtensionsDisjoint()
    ensures ModelExtensions * TextureExtensions == {}
  {
  }

  /** Every extension the binary scan looks for is a texture extension; ".webp" is not looked for. */
  lemma BinaryScanExtensionsAreTextures()
    ensures forall k :: 0 <= k < |BinaryScanExtensions| ==> BinaryScanExtensions[k] in TextureExtensions
    ensures ".webp" in TextureExtensions && ".webp" !in BinaryScanExtensions
  {
  }

  /** The texture test ignores letter case. */
  lemma IsTextureFileIgnoresCase(name: string)
    ensures IsTextureFile(Lower(name)) <==> IsTextureFile(name)
  {
    ExtOfLower(name);
    var e := Ext(name);
    assert Lower(Lower(e)) == Lower(e);
  }
}
