/** Optional values, the loaders' error kinds, and how a loader call ended. */
module Outcomes {

  datatype Option<T> = None | Some(value: T) {
    function GetOr(default: T): T {
      match this
      case Some(v) => v
      case None => default
    }
  }

  /** The exceptions the loaders raise (or that their database driver raises), by cause. */
  datatype Error =
    | UnknownTagType(tagtypeId: int)          // ValueError from get_tagtype_name_by_value
    | TagsetNotFound(tagsetName: string)      // the tagset query returned no row
    | NoNewTags(tagsetName: string)           // the id range is empty, so `tag_ids[0]` fails
    | DuplicateTagset(tagsetName: string)     // UNIQUE(name) on tagsets violated
    | GroupLeaderNotFound(group: string)      // a group key that is no object's source
    | DuplicateMedia(source: string)          // UNIQUE(source) on medias violated
    | MediaNotFound(source: string)           // the media query returned no row
    | ResolverFailed(tagsetName: string)      // the tag resolver answered None
    | TagNotFound(tagsetName: string, value: string)
    | DuplicateTagging(mediaId: int, tagId: int)

  datatype Result<T> = Ok(value: T) | Err(error: Error)

  /**
   * How a loader call ended. The loaders catch their exceptions and return
   * nothing, so this status stands for the path taken: its work committed,
   * an exception rolled its transaction back, or an exception escaped the call.
   */
  datatype Status = Committed | RolledBack(error: Error) | Raised(error: Error)
}
