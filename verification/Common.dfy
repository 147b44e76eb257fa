/** Entities shared by the node-side components. */
module Common {

  datatype Option<+T> = None | Some(value: T)

  /** Volume identifiers: the protocol only compares them. */
  type VolumeId(==, !new)

  /** CStorVolumeAttachmentStatus: what an entry of a transition list says. */
  datatype Status =
    | Uninitialized
    | WaitingForCVCBound
    | WaitingForVolumeToBeReady
    | MountUnderProgress
    | Mounted
    | UnmountUnderProgress
    | Unmounted
    | RemountUnderProgress
    | ResizeInProgress

  /** A line of the operating system's mount table. */
  datatype MountPoint = MountPoint(device: string, path: string, opts: seq<string>)

  /** The part of a CStorVolumeAttachment that the node driver reads when it lists its own. */
  datatype Attachment = Attachment(
    volume: VolumeId,
    marked: bool, // DeletionTimestamp != nil
    accessType: string,
    staging: string,
    target: string,
    device: string)
}
