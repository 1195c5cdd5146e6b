/** The image record the PDC service returns, read by field name. */
module Images {

  datatype Option<T> = None | Some(value: T)

  /** One image: its file name, checksums, format data and the composes that
      use it. mtime is a Unix timestamp; size is a count of bytes. */
  datatype Image = Image(
    fileName: string,
    sha256: string,
    md5: string,
    sha1: string,
    imageType: string,
    imageFormat: string,
    arch: string,
    discNumber: int,
    discCount: int,
    mtime: int,
    size: nat,
    bootable: bool,
    volumeId: string,
    implantMd5: string,
    subvariant: string,
    composes: seq<string>)
}
