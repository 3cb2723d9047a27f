/** The Mattermost records the cache mirrors, as the SDK hands them over. */
module Model {
  import opened Prelude

  /** The part of a post's `Props` map the code reads; an absent map is three empty entries. */
  datatype Props = Props(fromWebhook: Option<string>, overrideUsername: Option<string>, attachmentsText: string)

  /** A post without its metadata: the columns of the `posts` table. `rootId == ""` marks a thread root. */
  datatype Post = Post(
    id: Id, channelId: Id, userId: Id, rootId: Id, message: string,
    createAt: int, updateAt: int, editAt: int, deleteAt: int, replyCount: int,
    props: Props, fileIds: seq<Id>)

  datatype FileInfo = FileInfo(
    id: Id, postId: Id, name: string, size: int, mimeType: string, extension: string, width: int, height: int)

  datatype Reaction = Reaction(postId: Id, userId: Id, emojiName: string, createAt: int)

  /** What a post carries beside its columns when the server sends it in full. */
  datatype Metadata = Metadata(files: seq<FileInfo>, reactions: seq<Reaction>)

  datatype Channel = Channel(
    id: Id, teamId: Id, name: string, displayName: string, totalMsgCount: int, lastPostAt: int, deleteAt: int)

  datatype ChannelMember = ChannelMember(
    channelId: Id, userId: Id, msgCount: int, mentionCount: int, lastViewedAt: int)

  /** Newest first, as the first sort of `selectRecentMessages` and the search hits compare. */
  predicate NewerFirst(a: Post, b: Post) { a.createAt > b.createAt }

  /** Oldest first, ids breaking ties: the order every list of posts is shown in. */
  predicate OldestFirst(a: Post, b: Post) {
    if a.createAt == b.createAt then StrLess(a.id, b.id) else a.createAt < b.createAt
  }
}
