/**
 * An abstract snapshot of the file system the patcher inspects: which paths
 * exist, and for each the size `fs.stat` reports and the hexadecimal MD5
 * digest of its content. MD5 itself is not modelled; the digest is simply
 * recorded with the file.
 */
module Files {

  /** `path.join(root, name)`; path normalisation is not modelled. */
  datatype Path = Path(root: string, name: string)

  /** What `fs.stat` and a full MD5 read report about one file. */
  datatype FileStat = FileStat(size: nat, digest: string)

  /** The files present when a decision is taken. */
  type Snapshot = map<Path, FileStat>
}
