/** The filesystem as the patch engine sees it: resolved paths mapped to files that can
    be read, or that exist but cannot be read (permissions, I/O errors). A path that is
    not a key does not exist. */
module Disk {

  datatype Entry = Readable(content: string) | Unreadable

  type Disk = map<string, Entry>
}
