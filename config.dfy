/**
 * The file types the server accepts (app/config.py).  The upload route and
 * both directory routes spell out the same seven extensions.
 */
module Config {
  import opened Text

  /** `ALLOWED_FILE_EXTENSIONS`. */
  const AllowedFileExtensions: seq<string> := [".nii", ".nii.gz", ".dcm", ".jpg", ".jpeg", ".png", ".bmp"]

  /** `any(name.endswith(ext) for ext in …)`, on a name the caller has lowercased. */
  predicate EndsWithAllowed(name: string) {
    exists e | e in AllowedFileExtensions :: EndsWith(name, e)
  }
}
